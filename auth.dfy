/** Registration and login. The password hash (SHA-256 in hex) is a function parameter
    `hash`; nothing is assumed about it, not even that it is injective. */
module Auth {
  import opened Common
  import opened Tables
  import opened Store

  /** The row `authenticate` returns: `id, first_name, last_name, username, role`. */
  datatype Account = Account(id: int, firstName: string, lastName: string, username: string, role: string)

  function AccountOf(r: Row<User>): Account {
    Account(r.id, r.data.firstName, r.data.lastName, r.data.username, r.data.role)
  }

  /** `'admin' if count == 0 else 'user'`, with `count` from `SELECT COUNT(*) FROM users`. */
  function RoleFor(users: seq<Row<User>>): string {
    if |users| == 0 then "admin" else "user"
  }

  /** The user `register_user` inserts: the hash of the password is stored, never the
      password itself. */
  function Registered(users: seq<Row<User>>, hash: string -> string, firstName: string, lastName: string,
                      username: string, password: string): User {
    User(firstName, lastName, username, hash(password), RoleFor(users))
  }

  predicate Credentials(r: Row<User>, username: string, hashed: string) {
    r.data.username == username && r.data.password == hashed
  }

  /** The first row, in id order, with this username and stored hash. */
  function FirstWith(users: seq<Row<User>>, username: string, hashed: string): Option<Row<User>> {
    if users == [] then None
    else if Credentials(users[0], username, hashed) then Some(users[0])
    else FirstWith(users[1..], username, hashed)
  }

  /** `authenticate`: `SELECT ... WHERE username = ? AND password = ?` and `fetchone()`. The
      active flag is not consulted. */
  function Authenticate(users: seq<Row<User>>, hash: string -> string, username: string, password: string): Option<Account> {
    match FirstWith(users, username, hash(password))
    case None => None
    case Some(r) => Some(AccountOf(r))
  }

  lemma {:induction false} FirstWithFacts(users: seq<Row<User>>, username: string, hashed: string)
    ensures var r := FirstWith(users, username, hashed);
            r.Some? ==> r.value in users && Credentials(r.value, username, hashed)
    ensures FirstWith(users, username, hashed).None? <==>
              forall i :: 0 <= i < |users| ==> !Credentials(users[i], username, hashed)
  {
    if users != [] {
      FirstWithFacts(users[1..], username, hashed);
      assert forall i :: 1 <= i < |users| ==> users[i] == users[1..][i - 1];
    }
  }

  /** Login fails exactly when no user has that username and the hash of that password. */
  lemma AuthenticateFails(users: seq<Row<User>>, hash: string -> string, username: string, password: string)
    ensures Authenticate(users, hash, username, password).None? <==>
              forall i :: 0 <= i < |users| ==> !(users[i].data.username == username && users[i].data.password == hash(password))
  {
    FirstWithFacts(users, username, hash(password));
  }

  /** A successful login returns the account of a user with that username and the hash of
      that password. */
  lemma AuthenticateSound(users: seq<Row<User>>, hash: string -> string, username: string, password: string)
    requires Authenticate(users, hash, username, password).Some?
    ensures exists r :: r in users && r.data.username == username && r.data.password == hash(password) &&
                        Authenticate(users, hash, username, password) == Some(AccountOf(r))
  {
    FirstWithFacts(users, username, hash(password));
  }

  /** With usernames UNIQUE, the user holding those credentials is the one who logs in. */
  lemma {:induction false} AuthenticateFinds(users: seq<Row<User>>, hash: string -> string, username: string,
                                             password: string, k: int)
    requires UniqueKey(users, Username)
    requires 0 <= k < |users| && users[k].data.username == username && users[k].data.password == hash(password)
    ensures Authenticate(users, hash, username, password) == Some(AccountOf(users[k]))
  {
    if k > 0 {
      assert users[0].data.username != users[k].data.username;
      assert users[1..][k - 1] == users[k];
      AuthenticateFinds(users[1..], hash, username, password, k - 1);
    }
  }

  /** Registering keeps the users table consistent exactly when the username is free. */
  lemma RegisterValid(db: Database, data: User, now: string)
    requires db.Valid()
    ensures Consistent(Insert(db.users, data, now, true), db.categories, db.warehouses, db.products,
                       db.departments, db.suppliers, db.expenses, db.debts, db.damage, db.sales) <==>
            !Taken(db.users.rows, Username, data.username)
  {
    InsertFacts(db.users, data, now, true);
    InsertUnique(db.users, Username, data, now, true);
  }

  /** After a successful registration the new user can log in with the same password, and
      gets their new id, their names and the role the registration assigned. */
  lemma LoginAfterRegister(users: Table<User>, hash: string -> string, firstName: string, lastName: string,
                           username: string, password: string, now: string)
    requires UsersOk(users) && !Taken(users.rows, Username, username)
    ensures var after := Insert(users, Registered(users.rows, hash, firstName, lastName, username, password), now, true);
            Authenticate(after.rows, hash, username, password) ==
              Some(Account(users.next, firstName, lastName, username, RoleFor(users.rows)))
  {
    var data := Registered(users.rows, hash, firstName, lastName, username, password);
    var after := Insert(users, data, now, true);
    InsertUnique(users, Username, data, now, true);
    assert after.rows[|users.rows|] == Row(users.next, data, now, now, true);
    AuthenticateFinds(after.rows, hash, username, password, |users.rows|);
  }

  /** `register_user`: reads the user count, then inserts the user with role 'admin' when
      there was none and 'user' otherwise. A taken username makes the INSERT fail with a
      caught IntegrityError: the result is false and nothing is inserted. */
  method RegisterUser(db: Database, hash: string -> string, firstName: string, lastName: string,
                      username: string, password: string, now: string) returns (ok: bool)
    requires db.Valid()
    modifies db`users
    ensures db.Valid()
    ensures ok <==> !Taken(old(db.users.rows), Username, username)
    ensures ok ==> db.users == Insert(old(db.users), Registered(old(db.users.rows), hash, firstName, lastName, username, password), now, true)
    ensures ok ==> var added := db.users.rows[|db.users.rows| - 1];
                   added.data.password == hash(password) &&
                   (added.data.role == "admin" <==> old(db.users.rows) == []) &&
                   (added.data.role == "user" <==> old(db.users.rows) != [])
    ensures !ok ==> db.users == old(db.users)
  {
    var data := Registered(db.users.rows, hash, firstName, lastName, username, password);
    RegisterValid(db, data, now);
    if Taken(db.users.rows, Username, username) {
      return false;
    }
    db.CommitUsers(Insert(db.users, data, now, true));
    return true;
  }
}
