/** The inventory view: for every product whose name contains the search term, its stored
    quantity next to the quantities damaged and sold. */
module Inventory {
  import opened Common
  import opened Text
  import opened Tables
  import opened Store
  import opened Sales

  /** The quantity a damage row records against product `pid`. */
  function DamageQty(r: Row<Damage>, pid: int): int {
    if r.data.prodId == pid then r.data.qty else 0
  }

  /** `IFNULL((SELECT SUM(d.qty) FROM damage_products d WHERE d.prod_id = p.id), 0)`. */
  function Damaged(rows: seq<Row<Damage>>, pid: int): int {
    if rows == [] then 0 else DamageQty(rows[0], pid) + Damaged(rows[1..], pid)
  }

  /** One line of the inventory view. The category is absent when the product's category
      row is missing (the LEFT JOIN). */
  datatype Line = Line(id: int, name: string, category: Option<string>, price: real, quantity: int, damaged: int, sold: int)

  /** `LEFT JOIN categories c ON p.category_id = c.id`. */
  function CategoryOf(categories: seq<Row<Category>>, id: int): Option<string> {
    match Find(categories, id)
    case None => None
    case Some(c) => Some(c.data.name)
  }

  /** The line for one product. */
  function LineOf(p: Row<Product>, categories: seq<Row<Category>>, damage: seq<Row<Damage>>, sales: seq<Row<Sale>>): Line {
    Line(p.id, p.data.name, CategoryOf(categories, p.data.categoryId), p.data.price, p.data.quantity,
         Damaged(damage, p.id), Sold(sales, p.id))
  }

  /** `WHERE p.name LIKE '%term%'` over the products, in id order. */
  function Picked(products: seq<Row<Product>>, term: string): seq<Row<Product>> {
    Filter(products, (p: Row<Product>) => Contains(p.data.name, term))
  }

  /** The lines of the given products, one each, in the same order. */
  function LinesOf(ps: seq<Row<Product>>, categories: seq<Row<Category>>, damage: seq<Row<Damage>>,
                   sales: seq<Row<Sale>>): (lines: seq<Line>)
    ensures |lines| == |ps|
    ensures forall i :: 0 <= i < |ps| ==> lines[i] == LineOf(ps[i], categories, damage, sales)
  {
    if ps == [] then [] else [LineOf(ps[0], categories, damage, sales)] + LinesOf(ps[1..], categories, damage, sales)
  }

  /** `load_inventory`: the lines of the products whose name contains the trimmed term. */
  function Lines(products: seq<Row<Product>>, categories: seq<Row<Category>>, damage: seq<Row<Damage>>,
                 sales: seq<Row<Sale>>, term: string): seq<Line> {
    LinesOf(Picked(products, Strip(term)), categories, damage, sales)
  }

  /** The picked products are exactly the products whose name contains the term. */
  lemma PickedExactly(products: seq<Row<Product>>, term: string, p: Row<Product>)
    ensures p in Picked(products, term) <==> p in products && Contains(p.data.name, term)
  {
    FilterExactly(products, (x: Row<Product>) => Contains(x.data.name, term), p);
  }

  /** Picking keeps the products in ascending id order. */
  lemma PickedAscending(products: seq<Row<Product>>, term: string)
    requires Ascending(products)
    ensures Ascending(Picked(products, term))
  {
    FilterAscending(products, (x: Row<Product>) => Contains(x.data.name, term));
  }

  /** Each product whose name contains the trimmed term has its line. */
  lemma LinesCover(products: seq<Row<Product>>, categories: seq<Row<Category>>, damage: seq<Row<Damage>>,
                   sales: seq<Row<Sale>>, term: string, p: Row<Product>)
    requires p in products && Contains(p.data.name, Strip(term))
    ensures LineOf(p, categories, damage, sales) in Lines(products, categories, damage, sales, term)
  {
    PickedExactly(products, Strip(term), p);
    LinesOfHas(Picked(products, Strip(term)), categories, damage, sales, p);
  }

  lemma LinesOfHas(ps: seq<Row<Product>>, categories: seq<Row<Category>>, damage: seq<Row<Damage>>,
                   sales: seq<Row<Sale>>, p: Row<Product>)
    requires p in ps
    ensures LineOf(p, categories, damage, sales) in LinesOf(ps, categories, damage, sales)
  {
    var i :| 0 <= i < |ps| && ps[i] == p;
    assert LinesOf(ps, categories, damage, sales)[i] == LineOf(p, categories, damage, sales);
  }

  /** Every line is the line of a product whose name contains the trimmed term, and shows
      that product's stored quantity, damaged sum and sold sum. */
  lemma LinesSound(products: seq<Row<Product>>, categories: seq<Row<Category>>, damage: seq<Row<Damage>>,
                   sales: seq<Row<Sale>>, term: string)
    requires Ascending(products)
    ensures var lines := Lines(products, categories, damage, sales, term);
            forall i :: 0 <= i < |lines| ==>
              Find(products, lines[i].id).Some? && Contains(lines[i].name, Strip(term)) &&
              lines[i] == LineOf(Find(products, lines[i].id).value, categories, damage, sales) &&
              lines[i].quantity == Stock(products, lines[i].id) &&
              lines[i].damaged == Damaged(damage, lines[i].id) && lines[i].sold == Sold(sales, lines[i].id)
  {
    var lines := Lines(products, categories, damage, sales, term);
    forall i | 0 <= i < |lines|
      ensures Find(products, lines[i].id).Some? && Contains(lines[i].name, Strip(term)) &&
              lines[i] == LineOf(Find(products, lines[i].id).value, categories, damage, sales) &&
              lines[i].quantity == Stock(products, lines[i].id) &&
              lines[i].damaged == Damaged(damage, lines[i].id) && lines[i].sold == Sold(sales, lines[i].id)
    {
      LineSound(products, categories, damage, sales, term, i);
    }
  }

  /** One line of the view is the line of the picked product it stands for. */
  lemma LineSound(products: seq<Row<Product>>, categories: seq<Row<Category>>, damage: seq<Row<Damage>>,
                  sales: seq<Row<Sale>>, term: string, i: int)
    requires Ascending(products) && 0 <= i < |Picked(products, Strip(term))|
    ensures var p := Picked(products, Strip(term))[i];
            Find(products, p.id) == Some(p) && Contains(p.data.name, Strip(term)) &&
            Lines(products, categories, damage, sales, term)[i] == LineOf(p, categories, damage, sales)
  {
    var p := Picked(products, Strip(term))[i];
    PickedExactly(products, Strip(term), p);
    var k :| 0 <= k < |products| && products[k] == p;
    FindAt(products, k);
  }

  /** The lines come in ascending id order, so no product is listed twice. */
  lemma LinesInIdOrder(products: seq<Row<Product>>, categories: seq<Row<Category>>, damage: seq<Row<Damage>>,
                       sales: seq<Row<Sale>>, term: string)
    requires Ascending(products)
    ensures var lines := Lines(products, categories, damage, sales, term);
            forall i, j :: 0 <= i < j < |lines| ==> lines[i].id < lines[j].id
  {
    var picked := Picked(products, Strip(term));
    PickedAscending(products, Strip(term));
    var lines := Lines(products, categories, damage, sales, term);
    forall i, j | 0 <= i < j < |lines|
      ensures lines[i].id < lines[j].id
    {
      assert lines[i].id == picked[i].id && lines[j].id == picked[j].id;
    }
  }

  /** A product with no damage rows shows 0 damaged. */
  lemma {:induction false} NoDamageIsZero(rows: seq<Row<Damage>>, pid: int)
    requires forall k :: 0 <= k < |rows| ==> rows[k].data.prodId != pid
    ensures Damaged(rows, pid) == 0
  {
    if rows != [] {
      assert forall k :: 0 <= k < |rows[1..]| ==> rows[1..][k] == rows[k + 1];
      NoDamageIsZero(rows[1..], pid);
    }
  }

  /** A product with no sales shows 0 sold. */
  lemma {:induction false} NoSalesIsZero(rows: seq<Row<Sale>>, pid: int)
    requires forall k :: 0 <= k < |rows| ==> rows[k].data.prodId != pid
    ensures Sold(rows, pid) == 0
  {
    if rows != [] {
      assert forall k :: 0 <= k < |rows[1..]| ==> rows[1..][k] == rows[k + 1];
      NoSalesIsZero(rows[1..], pid);
    }
  }

  /** The sold column counts a sale whether it is active or not: flipping the active flag of a
      sale leaves every product's sold sum as it was. */
  lemma {:induction false} SoldIgnoresActive(rows: seq<Row<Sale>>, id: int, active: bool, pid: int)
    requires Ascending(rows) && Find(rows, id).Some?
    ensures Sold(Put(rows, Find(rows, id).value.(active := active)), pid) == Sold(rows, pid)
  {
    var r := Find(rows, id).value.(active := active);
    SoldPut(rows, r, pid);
  }

  /** The damaged column counts a damage row whether it is active or not: flipping the
      active flag of any stored damage row leaves every product's damaged sum as it was. */
  lemma {:induction false} DamagedIgnoresActive(rows: seq<Row<Damage>>, k: int, active: bool, pid: int)
    requires 0 <= k < |rows|
    ensures Damaged(rows[k := rows[k].(active := active)], pid) == Damaged(rows, pid)
  {
    var flipped := rows[k := rows[k].(active := active)];
    if k == 0 {
      assert flipped[1..] == rows[1..];
    } else {
      assert flipped[1..] == rows[1..][k - 1 := rows[k].(active := active)];
      DamagedIgnoresActive(rows[1..], k - 1, active, pid);
    }
  }
}
