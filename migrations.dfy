/** The two schema migrations, on a catalog that gives every table its column list in
    declaration order and each trigger the table it is on. `migrate_add_columns` gives every table of a
    fixed list the columns `created_at`, `updated_at` and `is_active` where they are missing
    and recreates the table's `updated_at` trigger; `migrate` gives `sales` the columns
    `receipt_no` and `notes` where they are missing. */
module Migrations {
  import opened Common

  /** A column's DEFAULT clause. */
  datatype Default = NoDefault | CurrentTimestamp | IntDefault(i: int) | TextDefault(s: string)

  datatype ColumnDef = ColumnDef(name: string, sqlType: string, notNull: bool, default: Default)

  /** The schema as both migrations see it: `PRAGMA table_info` of a table is its column list. */
  datatype Catalog = Catalog(columns: map<string, seq<ColumnDef>>, triggers: map<string, string>)

  /** The tables `migrate_add_columns` visits, in order. */
  const Tables: seq<string> := ["users", "categories", "warehouses", "products", "departments", "suppliers",
                                "expenses", "debts", "damage_products", "sales"]

  const CreatedAt := ColumnDef("created_at", "TEXT", true, CurrentTimestamp)
  const UpdatedAt := ColumnDef("updated_at", "TEXT", true, CurrentTimestamp)
  const IsActive := ColumnDef("is_active", "INTEGER", true, IntDefault(1))
  const ReceiptNo := ColumnDef("receipt_no", "TEXT", false, TextDefault(""))
  const Notes := ColumnDef("notes", "TEXT", false, TextDefault(""))

  /** `[row[1] for row in c.fetchall()]`: the column names, in order. */
  function Names(cols: seq<ColumnDef>): (r: seq<string>)
    ensures |r| == |cols|
    ensures forall i :: 0 <= i < |cols| ==> r[i] == cols[i].name
  {
    if cols == [] then [] else [cols[0].name] + Names(cols[1..])
  }

  lemma NamesAppend(a: seq<ColumnDef>, b: seq<ColumnDef>)
    ensures Names(a + b) == Names(a) + Names(b)
  {
    assert |Names(a + b)| == |Names(a) + Names(b)|;
    forall i | 0 <= i < |a + b| ensures Names(a + b)[i] == (Names(a) + Names(b))[i] {
      if i < |a| { assert (a + b)[i] == a[i]; } else { assert (a + b)[i] == b[i - |a|]; }
    }
  }

  /** What a list ending in more columns still has. */
  lemma NamesPrefix(a: seq<ColumnDef>, b: seq<ColumnDef>, n: string)
    requires a <= b && n in Names(a)
    ensures n in Names(b)
  {
    var i :| 0 <= i < |a| && Names(a)[i] == n;
    assert b[i] == a[i];
    assert Names(b)[i] == n;
  }

  /** `if col.name not in existing: ALTER TABLE ... ADD COLUMN col`: what one such statement
      appends. */
  function Added(existing: seq<string>, col: ColumnDef): seq<ColumnDef> {
    if col.name in existing then [] else [col]
  }

  /** After the statement for `col`, decided on the names of `base` (which the table
      still starts with), the table has a column of that name: the one it had, or `col`
      itself. */
  lemma AddedHas(base: seq<ColumnDef>, cols: seq<ColumnDef>, col: ColumnDef)
    requires base <= cols
    ensures col.name in Names(cols + Added(Names(base), col))
    ensures col.name !in Names(base) ==> col in cols + Added(Names(base), col)
  {
    var e := Names(base);
    if col.name in e {
      assert cols + Added(e, col) == cols;
      NamesPrefix(base, cols, col.name);
    } else {
      assert (cols + [col])[|cols|] == col;
      assert Names(cols + [col])[|cols|] == col.name;
    }
  }

  /** A column name, or a column, survives a later statement. */
  lemma AddedKeeps(cols: seq<ColumnDef>, e: seq<string>, col: ColumnDef, x: ColumnDef)
    ensures x.name in Names(cols) ==> x.name in Names(cols + Added(e, col))
    ensures x in cols ==> x in cols + Added(e, col)
  {
    if x.name in Names(cols) {
      NamesPrefix(cols, cols + Added(e, col), x.name);
    }
  }

  /** One table's column list after the three conditional `ALTER TABLE ... ADD COLUMN`s, all
      three decided on the names read once before the first of them. */
  function Stamped(cols: seq<ColumnDef>): seq<ColumnDef> {
    var existing := Names(cols);
    cols + Added(existing, CreatedAt) + Added(existing, UpdatedAt) + Added(existing, IsActive)
  }

  /** The three columns every visited table should end with. */
  predicate HasStamps(cols: seq<ColumnDef>) {
    CreatedAt.name in Names(cols) && UpdatedAt.name in Names(cols) && IsActive.name in Names(cols)
  }

  /** The columns a table had are kept, in place, and each added column is one of the three
      and one the table did not have, so no column is added twice. */
  lemma StampedKeeps(cols: seq<ColumnDef>)
    ensures cols <= Stamped(cols)
    ensures forall k :: |cols| <= k < |Stamped(cols)| ==>
              Stamped(cols)[k] in [CreatedAt, UpdatedAt, IsActive] && Stamped(cols)[k].name !in Names(cols)
  {
    var e := Names(cols);
    var a := Added(e, CreatedAt);
    var b := Added(e, UpdatedAt);
    var c := Added(e, IsActive);
    var s := Stamped(cols);
    assert s == cols + (a + b + c);
    forall k | |cols| <= k < |s|
      ensures s[k] in [CreatedAt, UpdatedAt, IsActive] && s[k].name !in e
    {
      assert s[k] == (a + b + c)[k - |cols|];
      assert s[k] in a + b + c;
    }
  }

  /** Three conditional statements decided on the same names: afterwards the table has a
      column of each name, and each one it lacked is there as given. */
  lemma AddedThree(cols: seq<ColumnDef>, x: ColumnDef, y: ColumnDef, z: ColumnDef)
    ensures var e := Names(cols);
            var s := cols + Added(e, x) + Added(e, y) + Added(e, z);
            x.name in Names(s) && y.name in Names(s) && z.name in Names(s) &&
            (x.name !in e ==> x in s) && (y.name !in e ==> y in s) && (z.name !in e ==> z in s)
  {
    var e := Names(cols);
    var s1 := cols + Added(e, x);
    var s2 := s1 + Added(e, y);
    AddedHas(cols, cols, x);
    AddedKeeps(s1, e, y, x);
    AddedKeeps(s2, e, z, x);
    AddedHas(cols, s1, y);
    AddedKeeps(s2, e, z, y);
    AddedHas(cols, s2, z);
  }

  /** Afterwards the table has all three; a missing `is_active` is added as
      `INTEGER NOT NULL DEFAULT 1`, a missing timestamp as
      `TEXT NOT NULL DEFAULT CURRENT_TIMESTAMP`. */
  lemma StampedAdds(cols: seq<ColumnDef>)
    ensures HasStamps(Stamped(cols))
    ensures CreatedAt.name !in Names(cols) ==> CreatedAt in Stamped(cols)
    ensures UpdatedAt.name !in Names(cols) ==> UpdatedAt in Stamped(cols)
    ensures IsActive.name !in Names(cols) ==> IsActive in Stamped(cols)
  {
    AddedThree(cols, CreatedAt, UpdatedAt, IsActive);
  }

  /** A table that already has the three is left as it is. */
  lemma StampedSettled(cols: seq<ColumnDef>)
    requires HasStamps(cols)
    ensures Stamped(cols) == cols
  {
  }

  /** Stamping a table twice is stamping it once. */
  lemma StampedIdempotent(cols: seq<ColumnDef>)
    ensures Stamped(Stamped(cols)) == Stamped(cols)
  {
    StampedAdds(cols);
    StampedSettled(Stamped(cols));
  }

  /** The name `migrate_add_columns` gives a table's trigger. */
  function TriggerName(table: string): string { table + "_updated_at" }

  /** Distinct tables get distinct trigger names. */
  lemma TriggerNameInjective(a: string, b: string)
    requires TriggerName(a) == TriggerName(b)
    ensures a == b
  {
    assert |a| == |b|;
    assert a == TriggerName(a)[..|a|];
    assert b == TriggerName(b)[..|b|];
  }

  /** One visit of the loop: the stamped columns, then `DROP TRIGGER IF EXISTS` and
      `CREATE TRIGGER` under the table's trigger name. Trigger names are unique in an SQLite
      schema, so the triggers are a map from name to the table each is on. */
  function MigrateTable(c: Catalog, table: string): Catalog
    requires table in c.columns
  {
    Catalog(c.columns[table := Stamped(c.columns[table])],
            (c.triggers - {TriggerName(table)})[TriggerName(table) := table])
  }

  /** Where a run of `migrate_add_columns` ends: the catalog, and the table whose
      `ALTER TABLE` failed with "no such table" if one did. DDL is not held in a transaction,
      so the tables visited before it stay migrated. */
  datatype Run = Run(catalog: Catalog, failedAt: Option<string>)

  /** The loop over `tables`. For a missing table `PRAGMA table_info` reads no columns, so
      the first `ALTER TABLE` is attempted and fails, which ends the run. */
  function Migrate(c: Catalog, tables: seq<string>): Run
    decreases |tables|
  {
    if tables == [] then Run(c, None)
    else if tables[0] !in c.columns then Run(c, Some(tables[0]))
    else Migrate(MigrateTable(c, tables[0]), tables[1..])
  }

  /** The run stops at a missing table exactly when there is one, at the first one; the set
      of tables never changes; tables outside the list keep their columns. */
  lemma {:induction false} MigrateStops(c: Catalog, tables: seq<string>)
    ensures Migrate(c, tables).catalog.columns.Keys == c.columns.Keys
    ensures Migrate(c, tables).failedAt.None? <==> forall t :: t in tables ==> t in c.columns
    ensures Migrate(c, tables).failedAt.Some? ==>
              var t := Migrate(c, tables).failedAt.value;
              t in tables && t !in c.columns
    ensures forall u :: u in c.columns && u !in tables ==> Migrate(c, tables).catalog.columns[u] == c.columns[u]
    decreases |tables|
  {
    if tables != [] && tables[0] in c.columns {
      MigrateStops(MigrateTable(c, tables[0]), tables[1..]);
    }
  }

  /** What a table had before the run is kept, in place, by the whole run. */
  lemma {:induction false} MigrateKeepsColumns(c: Catalog, tables: seq<string>, u: string)
    requires u in c.columns
    ensures u in Migrate(c, tables).catalog.columns && c.columns[u] <= Migrate(c, tables).catalog.columns[u]
    decreases |tables|
  {
    if tables != [] && tables[0] in c.columns {
      StampedKeeps(c.columns[tables[0]]);
      MigrateKeepsColumns(MigrateTable(c, tables[0]), tables[1..], u);
    }
  }

  /** A table's trigger, once in place, stays in place through any later visits. */
  predicate Settled(c: Catalog, t: string) {
    t in c.columns && HasStamps(c.columns[t]) &&
    TriggerName(t) in c.triggers && c.triggers[TriggerName(t)] == t
  }

  lemma VisitKeepsSettled(c: Catalog, t: string, u: string)
    requires t in c.columns && Settled(c, u)
    ensures Settled(MigrateTable(c, t), u)
  {
    StampedAdds(c.columns[t]);
    if TriggerName(t) == TriggerName(u) {
      TriggerNameInjective(t, u);
    }
  }

  lemma {:induction false} MigrateKeepsSettled(c: Catalog, tables: seq<string>, u: string)
    requires Settled(c, u)
    ensures Settled(Migrate(c, tables).catalog, u)
    decreases |tables|
  {
    if tables != [] && tables[0] in c.columns {
      VisitKeepsSettled(c, tables[0], u);
      MigrateKeepsSettled(MigrateTable(c, tables[0]), tables[1..], u);
    }
  }

  /** After a complete run every listed table has `created_at`, `updated_at` and
      `is_active`, and the trigger named `{table}_updated_at` exists and is on that table. */
  lemma {:induction false} MigrateSettles(c: Catalog, tables: seq<string>)
    requires Migrate(c, tables).failedAt.None?
    ensures forall t :: t in tables ==> Settled(Migrate(c, tables).catalog, t)
    decreases |tables|
  {
    if tables != [] {
      var c' := MigrateTable(c, tables[0]);
      MigrateSettles(c', tables[1..]);
      StampedAdds(c.columns[tables[0]]);
      MigrateKeepsSettled(c', tables[1..], tables[0]);
    }
  }

  /** Triggers named for no listed table are left alone. */
  lemma {:induction false} MigrateKeepsOtherTriggers(c: Catalog, tables: seq<string>, name: string)
    requires forall t :: t in tables ==> TriggerName(t) != name
    ensures name in Migrate(c, tables).catalog.triggers <==> name in c.triggers
    ensures name in c.triggers ==> Migrate(c, tables).catalog.triggers[name] == c.triggers[name]
    decreases |tables|
  {
    if tables != [] && tables[0] in c.columns {
      MigrateKeepsOtherTriggers(MigrateTable(c, tables[0]), tables[1..], name);
    }
  }

  /** A visit of a settled table changes nothing. */
  lemma VisitSettled(c: Catalog, t: string)
    requires Settled(c, t)
    ensures MigrateTable(c, t) == c
  {
    StampedSettled(c.columns[t]);
    assert MigrateTable(c, t).columns == c.columns;
    assert MigrateTable(c, t).triggers == c.triggers;
  }

  lemma {:induction false} MigrateSettledNoop(c: Catalog, tables: seq<string>)
    requires forall t :: t in tables ==> Settled(c, t)
    ensures Migrate(c, tables) == Run(c, None)
    decreases |tables|
  {
    if tables != [] {
      VisitSettled(c, tables[0]);
      MigrateSettledNoop(c, tables[1..]);
    }
  }

  /** `migrate_add_columns` is idempotent: after a complete run a second run completes and
      changes no table's columns and no trigger. */
  lemma MigrateIdempotent(c: Catalog, tables: seq<string>)
    requires Migrate(c, tables).failedAt.None?
    ensures Migrate(Migrate(c, tables).catalog, tables) == Migrate(c, tables)
  {
    MigrateSettles(c, tables);
    MigrateSettledNoop(Migrate(c, tables).catalog, tables);
  }

  /** `sales` with `receipt_no` and `notes` added where missing, both decided on the names
      read once. */
  function WithReceipt(cols: seq<ColumnDef>): seq<ColumnDef> {
    var existing := Names(cols);
    cols + Added(existing, ReceiptNo) + Added(existing, Notes)
  }

  /** `migrate` on the whole catalog: only `sales` is touched; without a `sales` table the
      first `ALTER TABLE` fails and nothing changes. */
  function AddReceipt(columns: map<string, seq<ColumnDef>>): map<string, seq<ColumnDef>> {
    if "sales" in columns then columns["sales" := WithReceipt(columns["sales"])] else columns
  }

  /** The existing columns of `sales` are kept in place; an added column is one of the two
      (each `TEXT DEFAULT ''`) and one `sales` lacked; both are there afterwards. */
  lemma WithReceiptFacts(cols: seq<ColumnDef>)
    ensures cols <= WithReceipt(cols)
    ensures forall k :: |cols| <= k < |WithReceipt(cols)| ==>
              WithReceipt(cols)[k] in [ReceiptNo, Notes] && WithReceipt(cols)[k].name !in Names(cols)
    ensures ReceiptNo.name in Names(WithReceipt(cols)) && Notes.name in Names(WithReceipt(cols))
    ensures ReceiptNo.name !in Names(cols) ==> ReceiptNo in WithReceipt(cols)
    ensures Notes.name !in Names(cols) ==> Notes in WithReceipt(cols)
  {
    var e := Names(cols);
    var a := Added(e, ReceiptNo);
    var b := Added(e, Notes);
    var s1 := cols + a;
    var s := WithReceipt(cols);
    assert s == cols + (a + b);
    forall k | |cols| <= k < |s|
      ensures s[k] in [ReceiptNo, Notes] && s[k].name !in e
    {
      assert s[k] == (a + b)[k - |cols|];
      assert s[k] in a + b;
    }
    AddedHas(cols, cols, ReceiptNo);
    AddedKeeps(s1, e, Notes, ReceiptNo);
    AddedHas(cols, s1, Notes);
  }

  /** Only `sales` changes, and no table is added or removed. */
  lemma AddReceiptOnlySales(columns: map<string, seq<ColumnDef>>)
    ensures AddReceipt(columns).Keys == columns.Keys
    ensures forall t :: t in columns && t != "sales" ==> AddReceipt(columns)[t] == columns[t]
  {
  }

  /** Running `migrate` twice is running it once. */
  lemma AddReceiptIdempotent(columns: map<string, seq<ColumnDef>>)
    ensures AddReceipt(AddReceipt(columns)) == AddReceipt(columns)
  {
    if "sales" in columns {
      WithReceiptFacts(columns["sales"]);
      var after := WithReceipt(columns["sales"]);
      assert WithReceipt(after) == after;
    }
  }

  /** One turn of the loop over `tables`, from position `i`. */
  lemma MigrateStep(c: Catalog, tables: seq<string>, i: int)
    requires 0 <= i < |tables|
    ensures tables[i] !in c.columns ==> Migrate(c, tables[i..]) == Run(c, Some(tables[i]))
    ensures tables[i] in c.columns ==> Migrate(c, tables[i..]) == Migrate(MigrateTable(c, tables[i]), tables[i + 1..])
  {
    assert tables[i..][0] == tables[i] && tables[i..][1..] == tables[i + 1..];
  }

  /** The catalog after the stamp columns and the trigger of `table` are in place. */
  lemma VisitState(c: Catalog, table: string, columns: map<string, seq<ColumnDef>>, triggers: map<string, string>)
    requires table in c.columns
    requires columns == c.columns[table := Stamped(c.columns[table])]
    requires triggers == (c.triggers - {TriggerName(table)})[TriggerName(table) := table]
    ensures Catalog(columns, triggers) == MigrateTable(c, table)
  {
  }

  /** The database's schema, which both migrations alter in place. */
  class Schema {
    var columns: map<string, seq<ColumnDef>>
    var triggers: map<string, string>

    constructor(columns: map<string, seq<ColumnDef>>, triggers: map<string, string>)
      ensures this.columns == columns && this.triggers == triggers
    {
      this.columns := columns;
      this.triggers := triggers;
    }

    function State(): Catalog
      reads this
    {
      Catalog(columns, triggers)
    }

    /** `if col.name not in existing: ALTER TABLE table ADD COLUMN col`. */
    method AddColumnIfMissing(table: string, existing: seq<string>, col: ColumnDef)
      requires table in columns
      modifies this`columns
      ensures columns == old(columns)[table := old(columns)[table] + Added(existing, col)]
    {
      if col.name !in existing {
        columns := columns[table := columns[table] + [col]];
      } else {
        assert old(columns)[table] + Added(existing, col) == old(columns)[table];
      }
    }

    /** The three conditional `ALTER TABLE ... ADD COLUMN`s on one table. */
    method AddStampColumns(table: string)
      requires table in columns
      modifies this`columns
      ensures columns == old(columns)[table := Stamped(old(columns)[table])]
    {
      var existing := Names(columns[table]);
      AddColumnIfMissing(table, existing, CreatedAt);
      AddColumnIfMissing(table, existing, UpdatedAt);
      AddColumnIfMissing(table, existing, IsActive);
    }

    /** `DROP TRIGGER IF EXISTS {table}_updated_at`, then `CREATE TRIGGER` under that name. */
    method RecreateTrigger(table: string)
      modifies this`triggers
      ensures triggers == (old(triggers) - {TriggerName(table)})[TriggerName(table) := table]
    {
      var trig := TriggerName(table);
      triggers := triggers - {trig};
      triggers := triggers[trig := table];
    }

    /** `migrate_add_columns`: each listed table in turn, stopping with the table whose
        `ALTER TABLE` fails because it does not exist. */
    method MigrateAddColumns() returns (failedAt: Option<string>)
      modifies this
      ensures Run(State(), failedAt) == Migrate(old(State()), Tables)
    {
      var i := 0;
      while i < |Tables|
        invariant 0 <= i <= |Tables|
        invariant Migrate(old(State()), Tables) == Migrate(State(), Tables[i..])
      {
        var table := Tables[i];
        MigrateStep(State(), Tables, i);
        if table !in columns {
          return Some(table);
        }
        ghost var before := State();
        AddStampColumns(table);
        RecreateTrigger(table);
        VisitState(before, table, columns, triggers);
        i := i + 1;
      }
      return None;
    }

    /** `migrate`: the two conditional `ALTER TABLE sales ADD COLUMN`s; `ok` is false when
        there is no `sales` table, in which case the first one fails and nothing changes. */
    method MigrateAddReceipt() returns (ok: bool)
      modifies this`columns
      ensures ok == ("sales" in old(columns))
      ensures columns == AddReceipt(old(columns))
    {
      if "sales" !in columns {
        return false;
      }
      var existing := Names(columns["sales"]);
      AddColumnIfMissing("sales", existing, ReceiptNo);
      AddColumnIfMissing("sales", existing, Notes);
      return true;
    }
  }
}
