/** The WHERE clauses the screens assemble from their search widgets, over one joined row
    seen as a map from column name to SQL value. */
module Query {
  import opened Common
  import opened Text
  import opened Order

  datatype Value = Str(s: string) | Int(i: int) | Null

  /** The columns the assembled WHERE clauses name. */
  datatype Column =
    | Id | Name | Sku | Date | DueDate | Reason | Status | Active
    | FirstName | LastName | Username | Password | Role | CreatedAt | UpdatedAt

  /** One row of a SELECT, by column. */
  type Record = map<Column, Value>

  /** The text SQLite compares with LIKE: an integer is rendered in decimal, NULL has none. */
  function AsText(v: Value): Option<string> {
    match v
    case Str(s) => Some(s)
    case Int(i) => Some(IntToString(i))
    case Null => None
  }

  /** One condition of a WHERE clause. */
  datatype Cond =
    | Like(col: Column, term: string)                // col LIKE '%term%'
    | Is(col: Column, v: Value)                      // col = v
    | AtLeast(col: Column, bound: string)            // col >= bound
    | AtMost(col: Column, bound: string)             // col <= bound
    | Between(col: Column, lo: string, hi: string)   // col BETWEEN lo AND hi
    | Either(left: Cond, right: Cond)                // (left OR right)

  /** The condition is true of the row; a comparison with NULL is never true. */
  predicate Holds(c: Cond, r: Record) {
    match c
    case Like(col, t) => col in r && AsText(r[col]).Some? && Contains(AsText(r[col]).value, t)
    case Is(col, v) => col in r && v != Null && r[col] == v
    case AtLeast(col, b) => col in r && r[col].Str? && StrLe(b, r[col].s)
    case AtMost(col, b) => col in r && r[col].Str? && StrLe(r[col].s, b)
    case Between(col, lo, hi) => col in r && r[col].Str? && StrLe(lo, r[col].s) && StrLe(r[col].s, hi)
    case Either(a, b) => Holds(a, r) || Holds(b, r)
  }

  /** The conditions joined with AND. */
  predicate AllHold(cs: seq<Cond>, r: Record) {
    forall i :: 0 <= i < |cs| ==> Holds(cs[i], r)
  }

  /** The conditions joined with OR. */
  predicate AnyHolds(cs: seq<Cond>, r: Record) {
    exists i :: 0 <= i < |cs| && Holds(cs[i], r)
  }

  lemma AllHoldOne(c: Cond, r: Record)
    ensures AllHold([c], r) <==> Holds(c, r)
  {
    assert [c][0] == c;
  }

  /** Appending to an AND list adds one more requirement. */
  lemma AllHoldAppend(a: seq<Cond>, b: seq<Cond>, r: Record)
    ensures AllHold(a + b, r) <==> AllHold(a, r) && AllHold(b, r)
  {
    assert forall i :: 0 <= i < |a| ==> (a + b)[i] == a[i];
    assert forall i :: 0 <= i < |b| ==> (a + b)[|a| + i] == b[i];
  }

  /** Appending to an OR list adds one more alternative. */
  lemma AnyHoldsAppend(a: seq<Cond>, b: seq<Cond>, r: Record)
    ensures AnyHolds(a + b, r) <==> AnyHolds(a, r) || AnyHolds(b, r)
  {
    if AnyHolds(a, r) {
      var i :| 0 <= i < |a| && Holds(a[i], r);
      assert (a + b)[i] == a[i];
    }
    if AnyHolds(b, r) {
      var i :| 0 <= i < |b| && Holds(b[i], r);
      assert (a + b)[|a| + i] == b[i];
    }
    if AnyHolds(a + b, r) {
      var i :| 0 <= i < |a + b| && Holds((a + b)[i], r);
      if i >= |a| {
        assert (a + b)[i] == b[i - |a|];
      } else {
        assert (a + b)[i] == a[i];
      }
    }
  }
}
