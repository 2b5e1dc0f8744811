/** One SQLite table with an `INTEGER PRIMARY KEY AUTOINCREMENT` id, its rows kept in id
    order, and the statements the screens run on it: INSERT, UPDATE ... WHERE id = ?,
    DELETE ... WHERE id = ?, together with the UNIQUE and FOREIGN KEY constraints that
    decide whether those statements succeed. */
module Tables {
  import opened Common

  /** A row: its id, the table's own columns, and the audit columns every table has once
      migrated (`created_at`, `updated_at`, `is_active`). */
  datatype Row<T> = Row(id: int, data: T, createdAt: string, updatedAt: string, active: bool)

  /** The rows in ascending id order and the id AUTOINCREMENT hands out next. */
  datatype Table<T> = Table(rows: seq<Row<T>>, next: int)

  /** Ids strictly increase along the rows, so no id occurs twice. */
  predicate Ascending<T>(rows: seq<Row<T>>) {
    forall i, j :: 0 <= i < j < |rows| ==> rows[i].id < rows[j].id
  }

  /** Ids are positive, below the next id, and ascending. */
  predicate WellFormed<T>(t: Table<T>) {
    t.next >= 1 &&
    (forall i :: 0 <= i < |t.rows| ==> 1 <= t.rows[i].id < t.next) &&
    Ascending(t.rows)
  }

  /** A freshly created table. */
  function Empty<T>(): (t: Table<T>)
    ensures WellFormed(t) && t.rows == []
  {
    Table([], 1)
  }

  /** `SELECT ... WHERE id = ?`: the row with that id, if there is one. */
  function Find<T>(rows: seq<Row<T>>, id: int): (r: Option<Row<T>>)
    ensures r.Some? ==> r.value in rows && r.value.id == id
    ensures r.None? <==> forall i :: 0 <= i < |rows| ==> rows[i].id != id
  {
    if rows == [] then None
    else if rows[0].id == id then Some(rows[0])
    else Find(rows[1..], id)
  }

  /** `INSERT`: a new row with the next id; both timestamps are `now`. */
  function Insert<T>(t: Table<T>, data: T, now: string, active: bool): Table<T> {
    Table(t.rows + [Row(t.next, data, now, now, active)], t.next + 1)
  }

  /** Every row whose id is `r.id` replaced by `r`: `UPDATE ... WHERE id = ?`. */
  function Put<T>(rows: seq<Row<T>>, r: Row<T>): (res: seq<Row<T>>)
    ensures |res| == |rows|
    ensures forall i :: 0 <= i < |rows| ==> res[i] == if rows[i].id == r.id then r else rows[i]
  {
    if rows == [] then [] else [if rows[0].id == r.id then r else rows[0]] + Put(rows[1..], r)
  }

  /** Every row with id `id` dropped: `DELETE ... WHERE id = ?`. */
  function Remove<T>(rows: seq<Row<T>>, id: int): (res: seq<Row<T>>)
    ensures |res| <= |rows|
    ensures forall k :: 0 <= k < |res| ==> res[k] in rows && res[k].id != id
    ensures forall k :: 0 <= k < |rows| && rows[k].id != id ==> rows[k] in res
  {
    if rows == [] then []
    else if rows[0].id == id then Remove(rows[1..], id)
    else [rows[0]] + Remove(rows[1..], id)
  }

  function Replace<T>(t: Table<T>, r: Row<T>): Table<T> {
    Table(Put(t.rows, r), t.next)
  }

  function Delete<T>(t: Table<T>, id: int): Table<T> {
    Table(Remove(t.rows, id), t.next)
  }

  /** `UPDATE ... SET <every column>, updated_at = now, is_active = active WHERE id = ?`:
      `created_at` is kept, and a missing id changes nothing. */
  function Rewrite<T>(t: Table<T>, id: int, data: T, now: string, active: bool): Table<T> {
    match Find(t.rows, id)
    case None => t
    case Some(prev) => Replace(t, Row(id, data, prev.createdAt, now, active))
  }

  /** With ascending ids, looking up the id of a row finds that row. */
  lemma {:induction false} FindAt<T>(rows: seq<Row<T>>, k: int)
    requires Ascending(rows) && 0 <= k < |rows|
    ensures Find(rows, rows[k].id) == Some(rows[k])
  {
    if k > 0 {
      assert rows[1..][k - 1] == rows[k];
      FindAt(rows[1..], k - 1);
    }
  }

  /** With ascending ids, a row of the table is found again by its id. */
  lemma FoundIsFound<T>(rows: seq<Row<T>>, r: Row<T>)
    requires Ascending(rows) && r in rows
    ensures Find(rows, r.id) == Some(r)
  {
    var k :| 0 <= k < |rows| && rows[k] == r;
    FindAt(rows, k);
  }

  /** `SELECT id FROM t WHERE key = k` (with `AND is_active = 1` when `activeOnly`) and
      `fetchone()`: the first such row in id order, or nothing. */
  function Lookup<T>(rows: seq<Row<T>>, key: T -> string, k: string, activeOnly: bool): Option<Row<T>> {
    if rows == [] then None
    else if key(rows[0].data) == k && (activeOnly ==> rows[0].active) then Some(rows[0])
    else Lookup(rows[1..], key, k, activeOnly)
  }

  /** A lookup finds a row of the table with that key (and active when asked for), and finds
      nothing exactly when no row qualifies. */
  lemma {:induction false} LookupFacts<T>(rows: seq<Row<T>>, key: T -> string, k: string, activeOnly: bool)
    ensures var r := Lookup(rows, key, k, activeOnly);
            r.Some? ==> r.value in rows && key(r.value.data) == k && (activeOnly ==> r.value.active)
    ensures Lookup(rows, key, k, activeOnly).None? <==>
              forall i :: 0 <= i < |rows| ==> !(key(rows[i].data) == k && (activeOnly ==> rows[i].active))
  {
    if rows != [] {
      LookupFacts(rows[1..], key, k, activeOnly);
      assert forall i :: 1 <= i < |rows| ==> rows[i] == rows[1..][i - 1];
    }
  }

  lemma {:induction false} FindAppend<T>(rows: seq<Row<T>>, r: Row<T>, id: int)
    ensures Find(rows + [r], id) ==
      if Find(rows, id).Some? then Find(rows, id) else if r.id == id then Some(r) else None
  {
    if rows != [] {
      assert (rows + [r])[1..] == rows[1..] + [r];
      FindAppend(rows[1..], r, id);
    }
  }

  /** After an INSERT the new id finds the new row and every other id finds what it found before. */
  lemma InsertFacts<T>(t: Table<T>, data: T, now: string, active: bool)
    requires WellFormed(t)
    ensures WellFormed(Insert(t, data, now, active))
    ensures Find(Insert(t, data, now, active).rows, t.next) == Some(Row(t.next, data, now, now, active))
    ensures forall id :: id != t.next ==> Find(Insert(t, data, now, active).rows, id) == Find(t.rows, id)
  {
    var r := Row(t.next, data, now, now, active);
    FindAppend(t.rows, r, t.next);
    forall id | id != t.next
      ensures Find(Insert(t, data, now, active).rows, id) == Find(t.rows, id)
    {
      FindAppend(t.rows, r, id);
    }
  }

  /** After an UPDATE of row `r.id`, that id finds `r` if it was there, and nothing changes
      for any other id. */
  lemma {:induction false} FindPut<T>(rows: seq<Row<T>>, r: Row<T>, id: int)
    ensures Find(Put(rows, r), id) ==
      if id == r.id then (if Find(rows, id).Some? then Some(r) else None) else Find(rows, id)
  {
    if rows != [] {
      FindPut(rows[1..], r, id);
      assert Put(rows, r)[1..] == Put(rows[1..], r);
    }
  }

  /** After a DELETE the id finds nothing and every other id finds what it found before. */
  lemma {:induction false} FindRemove<T>(rows: seq<Row<T>>, id: int, x: int)
    ensures Find(Remove(rows, id), x) == if x == id then None else Find(rows, x)
  {
    if rows != [] {
      FindRemove(rows[1..], id, x);
    }
  }

  lemma ReplaceWellFormed<T>(t: Table<T>, r: Row<T>)
    requires WellFormed(t)
    ensures WellFormed(Replace(t, r))
  {
    var rows := Replace(t, r).rows;
    assert forall i :: 0 <= i < |rows| ==> rows[i].id == t.rows[i].id;
  }

  lemma {:induction false} RemoveOrdered<T>(rows: seq<Row<T>>, id: int)
    requires Ascending(rows)
    ensures Ascending(Remove(rows, id))
  {
    if rows != [] {
      AscendingTail(rows);
      RemoveOrdered(rows[1..], id);
      var rest := Remove(rows[1..], id);
      if rows[0].id != id {
        forall k | 0 <= k < |rest|
          ensures rows[0].id < rest[k].id
        {
          HeadBelow(rows, rest[k]);
        }
        AscendingCons(rows[0], rest);
      }
    }
  }

  /** In ascending rows, the head's id is below that of any later row. */
  lemma HeadBelow<T>(rows: seq<Row<T>>, r: Row<T>)
    requires Ascending(rows) && rows != [] && r in rows[1..]
    ensures rows[0].id < r.id
  {
    var m :| 0 <= m < |rows[1..]| && rows[1..][m] == r;
    assert rows[m + 1] == r;
  }

  lemma AscendingCons<T>(r: Row<T>, rest: seq<Row<T>>)
    requires Ascending(rest) && forall k :: 0 <= k < |rest| ==> r.id < rest[k].id
    ensures Ascending([r] + rest)
  {
    var s := [r] + rest;
    forall i, j | 0 <= i < j < |s|
      ensures s[i].id < s[j].id
    {
      assert s[j] == rest[j - 1];
      if i > 0 {
        assert s[i] == rest[i - 1];
      }
    }
  }

  lemma DeleteWellFormed<T>(t: Table<T>, id: int)
    requires WellFormed(t)
    ensures WellFormed(Delete(t, id))
  {
    RemoveOrdered(t.rows, id);
    var rest := Delete(t, id).rows;
    forall k | 0 <= k < |rest|
      ensures 1 <= rest[k].id < t.next
    {
      assert rest[k] in t.rows;
    }
  }

  lemma RewriteWellFormed<T>(t: Table<T>, id: int, data: T, now: string, active: bool)
    requires WellFormed(t)
    ensures WellFormed(Rewrite(t, id, data, now, active))
  {
    match Find(t.rows, id)
    case None =>
    case Some(prev) => ReplaceWellFormed(t, Row(id, data, prev.createdAt, now, active));
  }

  /** An UPDATE of every column of row `id`: that row takes the new data, `updated_at` and
      active flag and keeps its `created_at`; every other row, and a missing id, stay as they
      were. */
  lemma RewriteFacts<T>(t: Table<T>, id: int, data: T, now: string, active: bool, x: int)
    ensures Rewrite(t, id, data, now, active).next == t.next
    ensures Find(Rewrite(t, id, data, now, active).rows, x) ==
      if x == id && Find(t.rows, id).Some? then Some(Row(id, data, Find(t.rows, id).value.createdAt, now, active))
      else Find(t.rows, x)
  {
    if Find(t.rows, id).Some? {
      FindPut(t.rows, Row(id, data, Find(t.rows, id).value.createdAt, now, active), x);
    }
  }

  /** Some row's `key` column already holds `k`. */
  predicate Taken<T>(rows: seq<Row<T>>, key: T -> string, k: string) {
    exists i :: 0 <= i < |rows| && key(rows[i].data) == k
  }

  /** Some row other than row `id` has `key` column `k`. */
  predicate TakenByOther<T>(rows: seq<Row<T>>, key: T -> string, k: string, id: int) {
    exists i :: 0 <= i < |rows| && rows[i].id != id && key(rows[i].data) == k
  }

  /** `UPDATE ... WHERE id = ?` setting the key column to `k` violates UNIQUE: the row is
      there and another row holds `k`. */
  predicate Clashes<T>(rows: seq<Row<T>>, key: T -> string, k: string, id: int) {
    Find(rows, id).Some? && TakenByOther(rows, key, k, id)
  }

  /** The `key` column is UNIQUE. */
  predicate UniqueKey<T>(rows: seq<Row<T>>, key: T -> string) {
    forall i, j :: 0 <= i < j < |rows| ==> key(rows[i].data) != key(rows[j].data)
  }

  /** An INSERT keeps the column UNIQUE exactly when the new value is not taken. */
  lemma InsertUnique<T>(t: Table<T>, key: T -> string, data: T, now: string, active: bool)
    requires UniqueKey(t.rows, key)
    ensures UniqueKey(Insert(t, data, now, active).rows, key) <==> !Taken(t.rows, key, key(data))
  {
    var rows := Insert(t, data, now, active).rows;
    if Taken(t.rows, key, key(data)) {
      var i :| 0 <= i < |t.rows| && key(t.rows[i].data) == key(data);
      assert rows[i] == t.rows[i] && rows[|t.rows|].data == data;
    }
  }

  /** An UPDATE keeps the column UNIQUE exactly when it does not clash. */
  lemma ReplaceUnique<T>(t: Table<T>, key: T -> string, r: Row<T>)
    requires WellFormed(t) && UniqueKey(t.rows, key)
    ensures UniqueKey(Put(t.rows, r), key) <==> !Clashes(t.rows, key, key(r.data), r.id)
  {
    if Clashes(t.rows, key, key(r.data), r.id) {
      ClashBreaksUnique(t, key, r);
    } else {
      NoClashKeepsUnique(t, key, r);
    }
  }

  lemma ClashBreaksUnique<T>(t: Table<T>, key: T -> string, r: Row<T>)
    requires Clashes(t.rows, key, key(r.data), r.id)
    ensures !UniqueKey(Put(t.rows, r), key)
  {
    var rows := Put(t.rows, r);
    var i :| 0 <= i < |t.rows| && t.rows[i].id != r.id && key(t.rows[i].data) == key(r.data);
    var j :| 0 <= j < |t.rows| && t.rows[j] == Find(t.rows, r.id).value;
    assert rows[i] == t.rows[i] && rows[j] == r;
    if i < j {
      assert key(rows[i].data) == key(rows[j].data);
    } else {
      assert key(rows[j].data) == key(rows[i].data);
    }
  }

  lemma NoClashKeepsUnique<T>(t: Table<T>, key: T -> string, r: Row<T>)
    requires Ascending(t.rows) && UniqueKey(t.rows, key)
    requires !Clashes(t.rows, key, key(r.data), r.id)
    ensures UniqueKey(Put(t.rows, r), key)
  {
    var rows := Put(t.rows, r);
    var present := exists k :: 0 <= k < |t.rows| && t.rows[k].id == r.id;
    assert present ==> Find(t.rows, r.id).Some?;
    forall i, j | 0 <= i < j < |rows|
      ensures key(rows[i].data) != key(rows[j].data)
    {
      if t.rows[i].id == r.id {
        assert t.rows[j].id != r.id;
        assert !(t.rows[j].id != r.id && key(t.rows[j].data) == key(r.data));
      } else if t.rows[j].id == r.id {
        assert !(t.rows[i].id != r.id && key(t.rows[i].data) == key(r.data));
      }
    }
  }

  lemma DeleteUnique<T>(t: Table<T>, key: T -> string, id: int)
    requires WellFormed(t) && UniqueKey(t.rows, key)
    ensures UniqueKey(Remove(t.rows, id), key)
  {
    var rest := Remove(t.rows, id);
    RemoveOrdered(t.rows, id);
    forall i, j | 0 <= i < j < |rest|
      ensures key(rest[i].data) != key(rest[j].data)
    {
      var a :| 0 <= a < |t.rows| && t.rows[a] == rest[i];
      var b :| 0 <= b < |t.rows| && t.rows[b] == rest[j];
      assert a != b;
      assert a < b || b < a;
    }
  }

  /** Every row's `ref` column names a row of `parent`: a satisfied FOREIGN KEY. */
  predicate RefsValid<T, U>(rows: seq<Row<T>>, ref: T -> int, parent: seq<Row<U>>) {
    forall i :: 0 <= i < |rows| ==> Find(parent, ref(rows[i].data)).Some?
  }

  /** Some row's `ref` column names `id`. */
  predicate Referenced<T>(rows: seq<Row<T>>, ref: T -> int, id: int) {
    exists i :: 0 <= i < |rows| && ref(rows[i].data) == id
  }

  /** A child INSERT keeps the foreign key exactly when the new row's parent exists. */
  lemma ChildInsertRefs<T, U>(t: Table<T>, ref: T -> int, parent: seq<Row<U>>, data: T, now: string, active: bool)
    requires RefsValid(t.rows, ref, parent)
    ensures RefsValid(Insert(t, data, now, active).rows, ref, parent) <==> Find(parent, ref(data)).Some?
  {
    assert Insert(t, data, now, active).rows[|t.rows|].data == data;
  }

  /** A child UPDATE keeps the foreign key when the new row's parent exists. */
  lemma ChildPutRefs<T, U>(rows: seq<Row<T>>, ref: T -> int, parent: seq<Row<U>>, r: Row<T>)
    requires RefsValid(rows, ref, parent) && Find(parent, ref(r.data)).Some?
    ensures RefsValid(Put(rows, r), ref, parent)
  {
  }

  lemma ChildRemoveRefs<T, U>(rows: seq<Row<T>>, ref: T -> int, parent: seq<Row<U>>, id: int)
    requires RefsValid(rows, ref, parent)
    ensures RefsValid(Remove(rows, id), ref, parent)
  {
    var rest := Remove(rows, id);
    forall k | 0 <= k < |rest|
      ensures Find(parent, ref(rest[k].data)).Some?
    {
      assert rest[k] in rows;
    }
  }

  /** A parent INSERT or UPDATE never breaks a foreign key. */
  lemma ParentInsertRefs<T, U>(rows: seq<Row<T>>, ref: T -> int, parent: Table<U>, data: U, now: string, active: bool)
    requires WellFormed(parent) && RefsValid(rows, ref, parent.rows)
    ensures RefsValid(rows, ref, Insert(parent, data, now, active).rows)
  {
    InsertFacts(parent, data, now, active);
  }

  lemma ParentPutRefs<T, U>(rows: seq<Row<T>>, ref: T -> int, parent: seq<Row<U>>, r: Row<U>)
    requires RefsValid(rows, ref, parent)
    ensures RefsValid(rows, ref, Put(parent, r))
  {
    forall k | 0 <= k < |rows|
      ensures Find(Put(parent, r), ref(rows[k].data)).Some?
    {
      FindPut(parent, r, ref(rows[k].data));
    }
  }

  /** A parent DELETE keeps the foreign key exactly when no child refers to the row. */
  lemma ParentRemoveRefs<T, U>(rows: seq<Row<T>>, ref: T -> int, parent: seq<Row<U>>, id: int)
    requires RefsValid(rows, ref, parent)
    ensures RefsValid(rows, ref, Remove(parent, id)) <==> !Referenced(rows, ref, id)
  {
    forall k | 0 <= k < |rows|
      ensures Find(Remove(parent, id), ref(rows[k].data)).Some? <==> ref(rows[k].data) != id
    {
      FindRemove(parent, id, ref(rows[k].data));
    }
  }

  /** Past the first row of an ascending table, the rest is ascending and lacks its id. */
  lemma AscendingTail<T>(rows: seq<Row<T>>)
    requires Ascending(rows) && rows != []
    ensures Ascending(rows[1..]) && Find(rows[1..], rows[0].id).None?
  {
    assert forall k :: 0 <= k < |rows[1..]| ==> rows[1..][k] == rows[k + 1];
  }

  /** With no row of id `r.id`, an UPDATE changes nothing. */
  lemma PutAbsent<T>(rows: seq<Row<T>>, r: Row<T>)
    requires Find(rows, r.id).None?
    ensures Put(rows, r) == rows
  {
  }

  /** Writing back a row the table already holds changes nothing. */
  lemma PutSame<T>(rows: seq<Row<T>>, r: Row<T>)
    requires Ascending(rows) && r in rows
    ensures Put(rows, r) == rows
  {
    var k :| 0 <= k < |rows| && rows[k] == r;
    forall i | 0 <= i < |rows|
      ensures Put(rows, r)[i] == rows[i]
    {
      if rows[i].id == r.id {
        assert !(i < k) && !(k < i);
      }
    }
  }

  /** With no row of id `id`, a DELETE changes nothing. */
  lemma {:induction false} RemoveAbsent<T>(rows: seq<Row<T>>, id: int)
    requires Find(rows, id).None?
    ensures Remove(rows, id) == rows
  {
    if rows != [] {
      RemoveAbsent(rows[1..], id);
      assert rows == [rows[0]] + rows[1..];
    }
  }

  /** An UPDATE that leaves the key column as it was keeps the column UNIQUE. */
  lemma SameKeyUnique<T>(t: Table<T>, key: T -> string, r: Row<T>)
    requires WellFormed(t) && UniqueKey(t.rows, key)
    requires Find(t.rows, r.id).Some? && key(r.data) == key(Find(t.rows, r.id).value.data)
    ensures UniqueKey(Put(t.rows, r), key)
  {
    ReplaceUnique(t, key, r);
  }

  /** `SELECT * FROM t WHERE <keep>` with no ORDER BY: the rows that pass, in id order. */
  function Filter<T>(rows: seq<Row<T>>, keep: Row<T> -> bool): seq<Row<T>> {
    if rows == [] then [] else (if keep(rows[0]) then [rows[0]] else []) + Filter(rows[1..], keep)
  }

  /** A row is selected exactly when it is in the table and passes the condition. */
  lemma {:induction false} FilterExactly<T>(rows: seq<Row<T>>, keep: Row<T> -> bool, r: Row<T>)
    ensures r in Filter(rows, keep) <==> r in rows && keep(r)
  {
    if rows != [] {
      FilterExactly(rows[1..], keep, r);
      assert rows == [rows[0]] + rows[1..];
    }
  }

  /** The selected rows stay in ascending id order, so none is listed twice. */
  lemma {:induction false} FilterAscending<T>(rows: seq<Row<T>>, keep: Row<T> -> bool)
    requires Ascending(rows)
    ensures Ascending(Filter(rows, keep))
  {
    if rows != [] {
      var rest := rows[1..];
      var tail := Filter(rest, keep);
      AscendingTail(rows);
      FilterAscending(rest, keep);
      if keep(rows[0]) {
        forall j | 0 <= j < |tail|
          ensures rows[0].id < tail[j].id
        {
          FilterExactly(rest, keep, tail[j]);
          var k :| 0 <= k < |rest| && rest[k] == tail[j];
          assert rest[k] == rows[k + 1];
        }
        var all := [rows[0]] + tail;
        forall i, j | 0 <= i < j < |all|
          ensures all[i].id < all[j].id
        {
          assert all[j] == tail[j - 1];
          if i > 0 {
            assert all[i] == tail[i - 1];
          }
        }
      }
    }
  }

  /** Two conditions that agree on every row select the same rows. */
  lemma {:induction false} FilterSame<T>(rows: seq<Row<T>>, keep: Row<T> -> bool, same: Row<T> -> bool)
    requires forall r :: keep(r) == same(r)
    ensures Filter(rows, keep) == Filter(rows, same)
  {
    if rows != [] {
      FilterSame(rows[1..], keep, same);
    }
  }
}
