/** The damaged-products screen: recording, correcting and deleting damage entries, which
    leave every product's stored quantity alone, and the filtered list of entries. */
module DamageScreens {
  import opened Common
  import opened Text
  import opened Order
  import opened Tables
  import opened Store
  import Q = Query

  function ProductName(p: Product): string { p.name }

  /** One line of the damage list. */
  datatype DamageLine = DamageLine(
    id: int, productName: string, date: string, qty: int, reason: string,
    createdAt: string, updatedAt: string, active: bool)

  function LineOf(d: Row<Damage>, p: Row<Product>): DamageLine {
    DamageLine(d.id, p.data.name, d.data.date, d.data.qty, d.data.reason, d.createdAt, d.updatedAt, d.active)
  }

  /** The columns of `damage_products d JOIN products p` the WHERE clause looks at. */
  function DamageRecord(d: Row<Damage>, p: Row<Product>): Q.Record {
    map[Q.Name := Q.Str(p.data.name), Q.Reason := Q.Str(d.data.reason), Q.Date := Q.Str(d.data.date)]
  }

  /** The search widgets, as `load_damage` reads them: the term and both dates trimmed, the
      product choice as it is. */
  datatype Search = Search(term: string, product: string, from: string, to: string)

  function SearchOf(term: string, product: string, from: string, to: string): Search {
    Search(Strip(term), product, Strip(from), Strip(to))
  }

  /** Which entries a search asks for, stated directly: a non-blank term occurs in the
      product name or the reason; a product choice other than 'All' is the product's exact
      name; the date is not before a given start nor after a given end. */
  predicate DamageWanted(s: Search, d: Row<Damage>, p: Row<Product>) {
    (s.term != [] ==> Contains(p.data.name, s.term) || Contains(d.data.reason, s.term)) &&
    (s.product != [] && s.product != "All" ==> p.data.name == s.product) &&
    (s.from != [] ==> StrLe(s.from, d.data.date)) &&
    (s.to != [] ==> StrLe(d.data.date, s.to))
  }

  /** `AND (p.name LIKE ? OR d.reason LIKE ?)` for a non-blank term. */
  function TermConds(t: string): seq<Q.Cond> {
    if t != [] then [Q.Either(Q.Like(Q.Name, t), Q.Like(Q.Reason, t))] else []
  }

  /** `AND p.name = ?` for a product choice other than 'All'. */
  function ProductConds(product: string): seq<Q.Cond> {
    if product != [] && product != "All" then [Q.Is(Q.Name, Q.Str(product))] else []
  }

  /** `AND d.date >= ?` for a given start. */
  function FromConds(lo: string): seq<Q.Cond> {
    if lo != [] then [Q.AtLeast(Q.Date, lo)] else []
  }

  /** `AND d.date <= ?` for a given end. */
  function ToConds(hi: string): seq<Q.Cond> {
    if hi != [] then [Q.AtMost(Q.Date, hi)] else []
  }

  lemma TermCondsMeaning(t: string, r: Q.Record, name: string, reason: string)
    requires Q.Name in r && r[Q.Name] == Q.Str(name) && Q.Reason in r && r[Q.Reason] == Q.Str(reason)
    ensures Q.AllHold(TermConds(t), r) <==> (t != [] ==> Contains(name, t) || Contains(reason, t))
  {
    if t != [] {
      Q.AllHoldOne(TermConds(t)[0], r);
    }
  }

  lemma ProductCondsMeaning(product: string, r: Q.Record, name: string)
    requires Q.Name in r && r[Q.Name] == Q.Str(name)
    ensures Q.AllHold(ProductConds(product), r) <==> (product != [] && product != "All" ==> name == product)
  {
    if product != [] && product != "All" {
      Q.AllHoldOne(ProductConds(product)[0], r);
    }
  }

  lemma DateCondsMeaning(lo: string, hi: string, r: Q.Record, date: string)
    requires Q.Date in r && r[Q.Date] == Q.Str(date)
    ensures Q.AllHold(FromConds(lo) + ToConds(hi), r) <==> (lo != [] ==> StrLe(lo, date)) && (hi != [] ==> StrLe(date, hi))
  {
    Q.AllHoldAppend(FromConds(lo), ToConds(hi), r);
    if lo != [] {
      Q.AllHoldOne(FromConds(lo)[0], r);
    }
    if hi != [] {
      Q.AllHoldOne(ToConds(hi)[0], r);
    }
  }

  /** The WHERE clause `load_damage` builds after `1=1`, condition by condition. */
  method DamageWhere(s: Search) returns (where: seq<Q.Cond>)
    ensures forall d, p :: Q.AllHold(where, DamageRecord(d, p)) <==> DamageWanted(s, d, p)
  {
    where := TermConds(s.term);
    where := where + ProductConds(s.product);
    var named := where;
    assert named == TermConds(s.term) + ProductConds(s.product);
    where := where + FromConds(s.from);
    where := where + ToConds(s.to);
    assert where == named + (FromConds(s.from) + ToConds(s.to));
    forall d, p
      ensures Q.AllHold(where, DamageRecord(d, p)) <==> DamageWanted(s, d, p)
    {
      var rec := DamageRecord(d, p);
      assert rec[Q.Name] == Q.Str(p.data.name) && rec[Q.Reason] == Q.Str(d.data.reason) && rec[Q.Date] == Q.Str(d.data.date);
      Q.AllHoldAppend(TermConds(s.term), ProductConds(s.product), rec);
      Q.AllHoldAppend(named, FromConds(s.from) + ToConds(s.to), rec);
      TermCondsMeaning(s.term, rec, p.data.name, d.data.reason);
      ProductCondsMeaning(s.product, rec, p.data.name);
      DateCondsMeaning(s.from, s.to, rec, d.data.date);
    }
  }

  /** The joined damage lines whose row satisfies `where`, in id order (`ORDER BY d.id`). */
  function Matching(damage: seq<Row<Damage>>, products: seq<Row<Product>>, where: seq<Q.Cond>): seq<DamageLine> {
    if damage == [] then []
    else
      var rest := Matching(damage[1..], products, where);
      match Find(products, damage[0].data.prodId)
      case None => rest
      case Some(p) => if Q.AllHold(where, DamageRecord(damage[0], p)) then [LineOf(damage[0], p)] + rest else rest
  }

  /** The damage lines a search asks for: every entry whose product exists and which
      `DamageWanted` accepts, in table order. */
  function Wanted(damage: seq<Row<Damage>>, products: seq<Row<Product>>, s: Search): seq<DamageLine> {
    if damage == [] then []
    else
      var rest := Wanted(damage[1..], products, s);
      match Find(products, damage[0].data.prodId)
      case None => rest
      case Some(p) => if DamageWanted(s, damage[0], p) then [LineOf(damage[0], p)] + rest else rest
  }

  lemma {:induction false} MatchingIsWanted(damage: seq<Row<Damage>>, products: seq<Row<Product>>, where: seq<Q.Cond>, s: Search)
    requires forall d, p :: Q.AllHold(where, DamageRecord(d, p)) <==> DamageWanted(s, d, p)
    ensures Matching(damage, products, where) == Wanted(damage, products, s)
  {
    if damage != [] {
      MatchingIsWanted(damage[1..], products, where, s);
    }
  }

  predicate IdsAbove(lines: seq<DamageLine>, b: int) {
    forall i :: 0 <= i < |lines| ==> b < lines[i].id
  }

  predicate IdsAscending(lines: seq<DamageLine>) {
    forall i, j :: 0 <= i < j < |lines| ==> lines[i].id < lines[j].id
  }

  /** Every line carries the id of an entry, so lines of entries above an id stay above it. */
  lemma {:induction false} WantedAbove(damage: seq<Row<Damage>>, products: seq<Row<Product>>, s: Search, b: int)
    requires forall k :: 0 <= k < |damage| ==> b < damage[k].id
    ensures IdsAbove(Wanted(damage, products, s), b)
  {
    if damage != [] {
      assert forall k :: 0 <= k < |damage[1..]| ==> damage[1..][k] == damage[k + 1];
      WantedAbove(damage[1..], products, s, b);
    }
  }

  /** The lines come in ascending id order (`ORDER BY d.id`), one line per entry at most. */
  lemma {:induction false} WantedInIdOrder(damage: seq<Row<Damage>>, products: seq<Row<Product>>, s: Search)
    requires Ascending(damage)
    ensures IdsAscending(Wanted(damage, products, s))
  {
    if damage != [] {
      var rest := damage[1..];
      assert forall k :: 0 <= k < |rest| ==> rest[k] == damage[k + 1];
      WantedInIdOrder(rest, products, s);
      WantedAbove(rest, products, s, damage[0].id);
      var tail := Wanted(rest, products, s);
      var lines := Wanted(damage, products, s);
      var p := Find(products, damage[0].data.prodId);
      if p.Some? && DamageWanted(s, damage[0], p.value) {
        assert lines == [LineOf(damage[0], p.value)] + tail;
        forall i, j | 0 <= i < j < |lines|
          ensures lines[i].id < lines[j].id
        {
          assert lines[j] == tail[j - 1];
          if i > 0 {
            assert lines[i] == tail[i - 1];
          }
        }
      }
    }
  }

  /** The product names of the form's choice list, in table order. */
  function Names(products: seq<Row<Product>>): (names: seq<string>)
    ensures |names| == |products| && forall i :: 0 <= i < |products| ==> names[i] == products[i].data.name
  {
    if products == [] then [] else [products[0].data.name] + Names(products[1..])
  }

  /** The entry form as `add_damage` and `update_damage` read it: every field trimmed. */
  datatype Form = Form(product: string, date: string, qty: string, reason: string)

  function FormOf(product: string, date: string, qty: string, reason: string): Form {
    Form(Strip(product), Strip(date), Strip(qty), Strip(reason))
  }

  predicate Filled(f: Form) {
    f.product != [] && f.date != [] && f.qty != [] && f.reason != []
  }

  /** The checks `add_damage` and `update_damage` run on the form, in order: every field must
      be non-empty; a product of that name must exist (else `fetchone()[0]` raises
      TypeError); the quantity must pass `int()` (else ValueError). The entry then names the
      first product of that name. */
  function CheckDamage(products: seq<Row<Product>>, f: Form): Checked<Damage> {
    if !Filled(f) then Rejected(Refused(MissingField))
    else
      var p := Lookup(products, ProductName, f.product, false);
      if p.None? then Rejected(Crashed(TypeError))
      else if ParseInt(f.qty).None? then Rejected(Crashed(ValueError))
      else Accepted(Damage(p.value.id, f.date, ParseInt(f.qty).value, f.reason))
  }

  /** How `CheckDamage` decides: a blank field is refused first; with every field filled, a
      name no product has crashes with TypeError; a form is accepted exactly when, besides,
      the quantity reads as an integer, and the entry then names the first product of that
      name and carries the form's date, quantity and reason. Any other rejection is the
      ValueError of `int()`. */
  lemma CheckDamageOutcomes(products: seq<Row<Product>>, f: Form)
    ensures CheckDamage(products, f) == Rejected(Refused(MissingField)) <==> !Filled(f)
    ensures CheckDamage(products, f) == Rejected(Crashed(TypeError)) <==>
              Filled(f) && forall k :: 0 <= k < |products| ==> products[k].data.name != f.product
    ensures CheckDamage(products, f).Accepted? <==>
              Filled(f) && (exists k :: 0 <= k < |products| && products[k].data.name == f.product) && ParseInt(f.qty).Some?
    ensures var c := CheckDamage(products, f);
            c.Accepted? ==>
              c.data.prodId == Lookup(products, ProductName, f.product, false).value.id &&
              c.data.date == f.date && ParseInt(f.qty) == Some(c.data.qty) && c.data.reason == f.reason
    ensures var c := CheckDamage(products, f);
            c.Rejected? ==> c.outcome in {Refused(MissingField), Crashed(TypeError), Crashed(ValueError)}
  {
    LookupFacts(products, ProductName, f.product, false);
  }

  /** An accepted form names a product that exists. */
  lemma CheckedProductExists(products: seq<Row<Product>>, f: Form)
    requires Ascending(products) && CheckDamage(products, f).Accepted?
    ensures Find(products, CheckDamage(products, f).data.prodId).Some?
  {
    LookupFacts(products, ProductName, f.product, false);
    FoundIsFound(products, Lookup(products, ProductName, f.product, false).value);
  }

  /** Recording an entry for an existing product keeps every table consistent. */
  lemma AddDamageValid(db: Database, data: Damage, now: string, active: bool)
    requires db.Valid() && Find(db.products.rows, data.prodId).Some?
    ensures Consistent(db.users, db.categories, db.warehouses, db.products, db.departments, db.suppliers,
                       db.expenses, db.debts, Insert(db.damage, data, now, active), db.sales)
  {
    InsertFacts(db.damage, data, now, active);
    ChildInsertRefs(db.damage, DamageProduct, db.products.rows, data, now, active);
  }

  /** Rewriting an entry so that it names an existing product keeps every table consistent. */
  lemma UpdateDamageValid(db: Database, id: int, data: Damage, now: string, active: bool)
    requires db.Valid() && Find(db.products.rows, data.prodId).Some?
    ensures Consistent(db.users, db.categories, db.warehouses, db.products, db.departments, db.suppliers,
                       db.expenses, db.debts, Rewrite(db.damage, id, data, now, active), db.sales)
  {
    RewriteWellFormed(db.damage, id, data, now, active);
    if Find(db.damage.rows, id).Some? {
      ChildPutRefs(db.damage.rows, DamageProduct, db.products.rows, Row(id, data, Find(db.damage.rows, id).value.createdAt, now, active));
    }
  }

  /** Deleting an entry keeps every table consistent: nothing refers to damage entries. */
  lemma DeleteDamageValid(db: Database, id: int)
    requires db.Valid()
    ensures Consistent(db.users, db.categories, db.warehouses, db.products, db.departments, db.suppliers,
                       db.expenses, db.debts, Delete(db.damage, id), db.sales)
  {
    DeleteWellFormed(db.damage, id);
    ChildRemoveRefs(db.damage.rows, DamageProduct, db.products.rows, id);
  }

  /** The damage screen: `currentId` is the entry last picked in the list (absent until the
      first pick; nothing clears it). */
  class DamageScreen {
    const db: Database
    var currentId: Option<int>

    constructor(db: Database)
      ensures this.db == db && currentId == None
    {
      this.db := db;
      currentId := None;
    }

    /** `on_select`: the picked row's id becomes the current entry. */
    method Select(id: int)
      modifies this`currentId
      ensures currentId == Some(id)
    {
      currentId := Some(id);
    }

    /** `load_damage`: the product names for the form, and the entries the search widgets
        ask for, in id order. */
    method LoadDamage(term: string, product: string, from: string, to: string)
      returns (names: seq<string>, choices: seq<string>, lines: seq<DamageLine>)
      ensures names == Names(db.products.rows) && choices == ["All"] + names
      ensures lines == Wanted(db.damage.rows, db.products.rows, SearchOf(term, product, from, to))
    {
      names := Names(db.products.rows);
      choices := ["All"] + names;
      var search := SearchOf(term, product, from, to);
      var where := DamageWhere(search);
      lines := Matching(db.damage.rows, db.products.rows, where);
      MatchingIsWanted(db.damage.rows, db.products.rows, where, search);
    }

    /** `add_damage`: when the form passes `CheckDamage`, one entry is added; otherwise
        nothing is written. No product's quantity changes either way. */
    method AddDamage(product: string, date: string, qty: string, reason: string, active: bool, now: string)
      returns (outcome: Outcome)
      requires db.Valid()
      modifies db`damage
      ensures db.Valid()
      ensures var c := CheckDamage(old(db.products.rows), FormOf(product, date, qty, reason));
              outcome == (if c.Accepted? then Saved else c.outcome) &&
              db.damage == (if c.Accepted? then Insert(old(db.damage), c.data, now, active) else old(db.damage))
    {
      var f := FormOf(product, date, qty, reason);
      var c := CheckDamage(db.products.rows, f);
      if c.Rejected? {
        return c.outcome;
      }
      CheckedProductExists(db.products.rows, f);
      AddDamageValid(db, c.data, now, active);
      db.CommitDamage(Insert(db.damage, c.data, now, active));
      return Saved;
    }

    /** `update_damage`. Nothing happens before an entry has been picked; then the form must
        pass `CheckDamage`, and the entry's product, date, quantity, reason, active flag and
        `updated_at` are rewritten, its `created_at` kept. A picked entry that has gone
        changes nothing. */
    method UpdateDamage(product: string, date: string, qty: string, reason: string, active: bool, now: string)
      returns (outcome: Outcome)
      requires db.Valid()
      modifies db`damage
      ensures db.Valid()
      ensures old(currentId).None? ==> outcome == Skipped && db.damage == old(db.damage)
      ensures old(currentId).Some? ==>
                var c := CheckDamage(old(db.products.rows), FormOf(product, date, qty, reason));
                outcome == (if c.Accepted? then Saved else c.outcome) &&
                db.damage == (if c.Accepted? then Rewrite(old(db.damage), old(currentId).value, c.data, now, active) else old(db.damage))
    {
      if currentId.None? {
        return Skipped;
      }
      var f := FormOf(product, date, qty, reason);
      var c := CheckDamage(db.products.rows, f);
      if c.Rejected? {
        return c.outcome;
      }
      CheckedProductExists(db.products.rows, f);
      UpdateDamageValid(db, currentId.value, c.data, now, active);
      db.CommitDamage(Rewrite(db.damage, currentId.value, c.data, now, active));
      return Saved;
    }

    /** `delete_damage`: with a row picked in the list, that entry is removed. */
    method DeleteDamage(picked: Option<int>) returns (outcome: Outcome)
      requires db.Valid()
      modifies db`damage
      ensures db.Valid()
      ensures outcome == Saved <==> picked.Some?
      ensures picked.None? ==> outcome == Skipped && db.damage == old(db.damage)
      ensures picked.Some? ==> db.damage == Delete(old(db.damage), picked.value)
    {
      if picked.None? {
        return Skipped;
      }
      DeleteDamageValid(db, picked.value);
      db.CommitDamage(Delete(db.damage, picked.value));
      return Saved;
    }
  }
}
