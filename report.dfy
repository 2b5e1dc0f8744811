/** The sales report: per product name, the quantity, cost and takings of the active sales of
    active products in one year, or one month of it; the list of years to choose from; and
    the guards and file name of the PDF export. */
module Report {
  import opened Common
  import opened Order
  import opened Tables
  import opened Store

  /** `strftime('%Y', date)` on a `YYYY-MM-DD` date: its first four characters. A shorter
      text has no year (NULL). */
  function YearOf(date: string): Option<string> {
    if |date| >= 4 then Some(date[..4]) else None
  }

  /** `strftime('%m', date)`: characters five and six. */
  function MonthOf(date: string): Option<string> {
    if |date| >= 7 then Some(date[5..7]) else None
  }

  /** `f'{i:02d}'` for a month number. */
  function TwoDigits(i: nat): string
    requires i < 100
  {
    [('0' as int + i / 10) as char, ('0' as int + i % 10) as char]
  }

  /** The month choices: 'All', then '01' to '12'. */
  function MonthChoices(): (r: seq<string>)
    ensures |r| == 13 && r[0] == "All"
    ensures forall i :: 1 <= i < 13 ==> r[i] == TwoDigits(i) && |r[i]| == 2
  {
    ["All"] + seq(12, i requires 0 <= i < 12 => TwoDigits(i + 1))
  }

  /** The date lies in the chosen year and, unless the month is 'All', in the chosen month. */
  predicate InPeriod(date: string, year: string, month: string) {
    YearOf(date) == Some(year) && (month == "All" || MonthOf(date) == Some(month))
  }

  /** One joined sale the report counts: product name, quantity, cost and takings. */
  datatype Item = Item(name: string, qty: int, cost: real, takings: real)

  function ItemName(i: Item): string { i.name }

  /** What one sale contributes to `sales s JOIN products p`: an item when the sale and its
      product are active and the sale falls in the period, nothing otherwise. */
  function ItemOf(s: Row<Sale>, products: seq<Row<Product>>, year: string, month: string): seq<Item> {
    match Find(products, s.data.prodId)
    case None => []
    case Some(p) =>
      if s.active && p.active && InPeriod(s.data.date, year, month)
      then [Item(p.data.name, s.data.qty, s.data.qty as real * p.data.costPrice, s.data.qty as real * p.data.price)]
      else []
  }

  /** The counted rows of `sales s JOIN products p`, in table order. */
  function Items(sales: seq<Row<Sale>>, products: seq<Row<Product>>, year: string, month: string): seq<Item> {
    if sales == [] then [] else ItemOf(sales[0], products, year, month) + Items(sales[1..], products, year, month)
  }

  function NamesOf(items: seq<Item>): (r: seq<string>)
    ensures |r| == |items| && forall k :: 0 <= k < |items| ==> r[k] == items[k].name
  {
    if items == [] then [] else [items[0].name] + NamesOf(items[1..])
  }

  /** `GROUP BY p.name ORDER BY p.name`: the distinct names, ascending. */
  function Groups(items: seq<Item>): seq<string> {
    Dedup(SortBy(NamesOf(items), Self, false))
  }

  function QtyFor(items: seq<Item>, name: string): int {
    if items == [] then 0 else (if items[0].name == name then items[0].qty else 0) + QtyFor(items[1..], name)
  }

  function CostFor(items: seq<Item>, name: string): real {
    if items == [] then 0.0 else (if items[0].name == name then items[0].cost else 0.0) + CostFor(items[1..], name)
  }

  function TakingsFor(items: seq<Item>, name: string): real {
    if items == [] then 0.0 else (if items[0].name == name then items[0].takings else 0.0) + TakingsFor(items[1..], name)
  }

  /** One line of the report. */
  datatype ReportRow = ReportRow(product: string, totalQty: int, totalCost: real, totalSales: real)

  function Group(names: seq<string>, items: seq<Item>): (rows: seq<ReportRow>)
    ensures |rows| == |names|
    ensures forall k :: 0 <= k < |names| ==>
      rows[k] == ReportRow(names[k], QtyFor(items, names[k]), CostFor(items, names[k]), TakingsFor(items, names[k]))
  {
    if names == [] then []
    else [ReportRow(names[0], QtyFor(items, names[0]), CostFor(items, names[0]), TakingsFor(items, names[0]))] + Group(names[1..], items)
  }

  /** The rows the report query returns. */
  function ReportRows(sales: seq<Row<Sale>>, products: seq<Row<Product>>, year: string, month: string): seq<ReportRow> {
    var items := Items(sales, products, year, month);
    Group(Groups(items), items)
  }

  function RowsQty(rows: seq<ReportRow>): int {
    if rows == [] then 0 else rows[0].totalQty + RowsQty(rows[1..])
  }

  function ItemsQty(items: seq<Item>): int {
    if items == [] then 0 else items[0].qty + ItemsQty(items[1..])
  }

  predicate Distinct(s: seq<string>) {
    forall i, j :: 0 <= i < j < |s| ==> s[i] != s[j]
  }

  /** The quantity of `i` once for every group named like it. */
  function Hits(names: seq<string>, i: Item): int {
    if names == [] then 0 else (if names[0] == i.name then i.qty else 0) + Hits(names[1..], i)
  }

  lemma {:induction false} DistinctOnce(names: seq<string>, i: Item)
    requires Distinct(names)
    ensures Hits(names, i) == if i.name in names then i.qty else 0
  {
    if names != [] {
      var t := names[1..];
      assert names == [names[0]] + t;
      assert Distinct(t) by {
        forall a, b | 0 <= a < b < |t|
          ensures t[a] != t[b]
        {
          assert t[a] == names[a + 1] && t[b] == names[b + 1];
        }
      }
      DistinctOnce(t, i);
      if names[0] == i.name {
        assert i.name !in t by {
          forall k | 0 <= k < |t|
            ensures t[k] != i.name
          {
            assert t[k] == names[k + 1];
          }
        }
      }
    }
  }

  /** One more item adds its quantity once for every group named like it. */
  lemma {:induction false} GroupQtyCons(names: seq<string>, i: Item, rest: seq<Item>)
    ensures RowsQty(Group(names, [i] + rest)) == Hits(names, i) + RowsQty(Group(names, rest))
  {
    if names != [] {
      var n := names[0];
      var all := [i] + rest;
      assert all[0] == i && all[1..] == rest;
      var g1, g2 := Group(names, all), Group(names, rest);
      assert g1[0].totalQty == QtyFor(all, n) == (if i.name == n then i.qty else 0) + QtyFor(rest, n);
      assert g2[0].totalQty == QtyFor(rest, n);
      assert g1[1..] == Group(names[1..], all);
      assert g2[1..] == Group(names[1..], rest);
      GroupQtyCons(names[1..], i, rest);
    }
  }

  lemma {:induction false} GroupQtyEmpty(names: seq<string>)
    ensures RowsQty(Group(names, [])) == 0
  {
    if names != [] {
      GroupQtyEmpty(names[1..]);
    }
  }

  /** Grouping by distinct names that cover every item loses and doubles no quantity. */
  lemma {:induction false} GroupQtyConserved(names: seq<string>, items: seq<Item>)
    requires Distinct(names)
    requires forall k :: 0 <= k < |items| ==> items[k].name in names
    ensures RowsQty(Group(names, items)) == ItemsQty(items)
  {
    if items == [] {
      GroupQtyEmpty(names);
    } else {
      assert items == [items[0]] + items[1..];
      GroupQtyCons(names, items[0], items[1..]);
      DistinctOnce(names, items[0]);
      assert forall k :: 0 <= k < |items[1..]| ==> items[1..][k] == items[k + 1];
      GroupQtyConserved(names, items[1..]);
    }
  }

  /** The groups are the names of the counted items, each once, in ascending order. */
  lemma GroupsFacts(items: seq<Item>)
    ensures StrictlySorted(Groups(items), false)
    ensures forall n :: n in Groups(items) <==> exists k :: 0 <= k < |items| && items[k].name == n
  {
    var names := NamesOf(items);
    var sorted := SortBy(names, Self, false);
    SortBySorted(names, Self, false);
    DedupDistinct(sorted, false);
    forall n
      ensures n in Groups(items) <==> exists k :: 0 <= k < |items| && items[k].name == n
    {
      assert n in sorted <==> n in multiset(sorted);
      assert n in names <==> n in multiset(names);
      if n in names {
        var k :| 0 <= k < |names| && names[k] == n;
        assert items[k].name == n;
      }
      if exists k :: 0 <= k < |items| && items[k].name == n {
        var k :| 0 <= k < |items| && items[k].name == n;
        assert names[k] == n;
      }
    }
  }

  /** One report row per distinct product name, in ascending name order. */
  lemma ReportSorted(sales: seq<Row<Sale>>, products: seq<Row<Product>>, year: string, month: string)
    ensures var rows := ReportRows(sales, products, year, month);
            forall i, j :: 0 <= i < j < |rows| ==> rows[i].product != rows[j].product && StrLe(rows[i].product, rows[j].product)
  {
    GroupsFacts(Items(sales, products, year, month));
  }

  /** Some counted item has the name `n`. */
  predicate Counted(items: seq<Item>, n: string) {
    exists j :: 0 <= j < |items| && items[j].name == n
  }

  /** Some row is about the product named `n`. */
  predicate Listed(rows: seq<ReportRow>, n: string) {
    exists k :: 0 <= k < |rows| && rows[k].product == n
  }

  /** Every group names a counted item, every counted item's name has its group, and each
      group sums the quantities of the items of its name. */
  lemma GroupCovers(items: seq<Item>)
    ensures var rows := Group(Groups(items), items);
            (forall k :: 0 <= k < |rows| ==> Counted(items, rows[k].product) && rows[k].totalQty == QtyFor(items, rows[k].product)) &&
            (forall j :: 0 <= j < |items| ==> Listed(rows, items[j].name))
  {
    var names := Groups(items);
    var rows := Group(names, items);
    GroupsFacts(items);
    forall k | 0 <= k < |rows|
      ensures Counted(items, rows[k].product)
    {
      assert names[k] in names;
    }
    forall j | 0 <= j < |items|
      ensures Listed(rows, items[j].name)
    {
      assert items[j].name in names;
      var k :| 0 <= k < |names| && names[k] == items[j].name;
      assert rows[k].product == items[j].name;
    }
  }

  /** Every row names a product of some counted sale and sums the quantities of the counted
      sales of that name, and every counted sale's product name has a row. */
  lemma ReportCovers(sales: seq<Row<Sale>>, products: seq<Row<Product>>, year: string, month: string)
    ensures var rows := ReportRows(sales, products, year, month);
            var items := Items(sales, products, year, month);
            (forall k :: 0 <= k < |rows| ==> Counted(items, rows[k].product) && rows[k].totalQty == QtyFor(items, rows[k].product)) &&
            (forall j :: 0 <= j < |items| ==> Listed(rows, items[j].name))
  {
    GroupCovers(Items(sales, products, year, month));
  }

  /** The quantities of the rows add up to the quantity of all counted sales. */
  lemma ReportQtyConserved(sales: seq<Row<Sale>>, products: seq<Row<Product>>, year: string, month: string)
    ensures RowsQty(ReportRows(sales, products, year, month)) == ItemsQty(Items(sales, products, year, month))
  {
    var items := Items(sales, products, year, month);
    var names := Groups(items);
    GroupsFacts(items);
    forall k | 0 <= k < |items|
      ensures items[k].name in names
    {
    }
    assert Distinct(names);
    GroupQtyConserved(names, items);
  }

  /** The report leaves out a sale that is not active, wherever it is in the table. */
  lemma {:induction false} InactiveSaleIgnored(before: seq<Row<Sale>>, s: Row<Sale>, after: seq<Row<Sale>>,
                                               products: seq<Row<Product>>, year: string, month: string)
    requires !s.active
    ensures Items(before + [s] + after, products, year, month) == Items(before + after, products, year, month)
  {
    if before == [] {
      var x := [s] + after;
      assert before + [s] + after == x && before + after == after;
      assert x[0] == s && x[1..] == after;
      assert ItemOf(s, products, year, month) == [];
    } else {
      var x, y := before + [s] + after, before + after;
      assert x[0] == before[0] && y[0] == before[0];
      assert x[1..] == before[1..] + [s] + after;
      assert y[1..] == before[1..] + after;
      InactiveSaleIgnored(before[1..], s, after, products, year, month);
    }
  }

  /** There are report rows exactly when some sale is counted. */
  lemma EmptyReport(items: seq<Item>)
    ensures Group(Groups(items), items) == [] <==> items == []
  {
    GroupsFacts(items);
    if items != [] {
      assert items[0].name in Groups(items);
    }
  }

  /** What `generate_report` leads to. */
  datatype Generated = NoYearSelected | NoData | Shown(rows: seq<ReportRow>)

  /** `generate_report`: no year, no active data for the period, or the report rows. */
  function GenerateReport(sales: seq<Row<Sale>>, products: seq<Row<Product>>, year: string, month: string): (g: Generated)
    ensures g.NoYearSelected? <==> year == []
    ensures g.NoData? <==> year != [] && Items(sales, products, year, month) == []
    ensures g.Shown? ==> g.rows == ReportRows(sales, products, year, month) && g.rows != []
  {
    if year == [] then NoYearSelected
    else
      var rows := ReportRows(sales, products, year, month);
      EmptyReport(Items(sales, products, year, month));
      if rows == [] then NoData else Shown(rows)
  }

  /** The years of the sale dates, with repetitions. */
  function SaleYears(sales: seq<Row<Sale>>): seq<string> {
    if sales == [] then []
    else (if YearOf(sales[0].data.date).Some? then [YearOf(sales[0].data.date).value] else []) + SaleYears(sales[1..])
  }

  /** `SELECT DISTINCT strftime('%Y', date) FROM sales ORDER BY 1 DESC`. */
  function ReportYears(sales: seq<Row<Sale>>): seq<string> {
    Dedup(SortBy(SaleYears(sales), Self, true))
  }

  lemma {:induction false} SaleYearsMembers(sales: seq<Row<Sale>>, y: string)
    ensures y in SaleYears(sales) <==> exists k :: 0 <= k < |sales| && YearOf(sales[k].data.date) == Some(y)
  {
    if sales != [] {
      SaleYearsMembers(sales[1..], y);
      if exists k :: 0 <= k < |sales[1..]| && YearOf(sales[1..][k].data.date) == Some(y) {
        var k :| 0 <= k < |sales[1..]| && YearOf(sales[1..][k].data.date) == Some(y);
        assert sales[k + 1] == sales[1..][k];
      }
      if exists k :: 0 <= k < |sales| && YearOf(sales[k].data.date) == Some(y) {
        var k :| 0 <= k < |sales| && YearOf(sales[k].data.date) == Some(y);
        if k > 0 {
          assert sales[1..][k - 1] == sales[k];
        }
      }
    }
  }

  /** The year list holds every year some sale has, each once, latest first. */
  lemma ReportYearsFacts(sales: seq<Row<Sale>>)
    ensures StrictlySorted(ReportYears(sales), true)
    ensures forall y :: y in ReportYears(sales) <==> exists k :: 0 <= k < |sales| && YearOf(sales[k].data.date) == Some(y)
  {
    var years := SaleYears(sales);
    var sorted := SortBy(years, Self, true);
    SortBySorted(years, Self, true);
    DedupDistinct(sorted, true);
    forall y
      ensures y in ReportYears(sales) <==> exists k :: 0 <= k < |sales| && YearOf(sales[k].data.date) == Some(y)
    {
      assert y in sorted <==> y in multiset(sorted);
      assert y in years <==> y in multiset(years);
      SaleYearsMembers(sales, y);
    }
  }

  /** `_load_report_years`: the first year of the list is selected, when there is one. */
  function DefaultYear(years: seq<string>): (y: Option<string>)
    ensures years == [] <==> y.None?
    ensures y.Some? ==> y.value in years
  {
    if years == [] then None else Some(years[0])
  }

  /** The year selected by default is the latest year any sale has. */
  lemma DefaultIsLatest(sales: seq<Row<Sale>>, k: int)
    requires 0 <= k < |sales| && YearOf(sales[k].data.date).Some?
    ensures DefaultYear(ReportYears(sales)).Some?
    ensures StrLe(YearOf(sales[k].data.date).value, DefaultYear(ReportYears(sales)).value)
  {
    var years := ReportYears(sales);
    var y := YearOf(sales[k].data.date).value;
    ReportYearsFacts(sales);
    assert y in years;
    var j :| 0 <= j < |years| && years[j] == y;
    if j > 0 {
      assert InOrder(years[0], years[j], true);
    } else {
      StrLeRefl(y);
    }
  }

  /** The month part of the export file name. */
  function MonthLabel(month: string): string {
    if month != "All" then month else "all"
  }

  /** `f"sales_report_{year}_{m_lbl}.pdf"`. */
  function ExportFileName(year: string, month: string): string {
    "sales_report_" + year + "_" + MonthLabel(month) + ".pdf"
  }

  /** The text before the first underscore. */
  function BeforeUnderscore(s: string): string {
    if s == [] || s[0] == '_' then [] else [s[0]] + BeforeUnderscore(s[1..])
  }

  lemma {:induction false} BeforeUnderscoreOf(y: string, r: string)
    requires '_' !in y
    ensures BeforeUnderscore(y + "_" + r) == y
  {
    if y != [] {
      assert (y + "_" + r)[1..] == y[1..] + "_" + r;
      BeforeUnderscoreOf(y[1..], r);
    }
  }

  lemma CancelPrefix(p: string, a: string, b: string)
    requires p + a == p + b
    ensures a == b
  {
    assert a == (p + a)[|p|..];
    assert b == (p + b)[|p|..];
  }

  lemma CancelSuffix(a: string, b: string, q: string)
    requires a + q == b + q
    ensures a == b
  {
    assert a == (a + q)[..|a|];
    assert b == (b + q)[..|b|];
  }

  /** The file name as the prefix, the year, an underscore and the rest. */
  lemma FileNameParts(year: string, month: string)
    ensures ExportFileName(year, month) == "sales_report_" + (year + "_" + (MonthLabel(month) + ".pdf"))
  {
  }

  /** With years free of underscores, the file name tells the year and the month label apart. */
  lemma FileNameDeterminesPeriod(y1: string, m1: string, y2: string, m2: string)
    requires '_' !in y1 && '_' !in y2
    requires ExportFileName(y1, m1) == ExportFileName(y2, m2)
    ensures y1 == y2 && MonthLabel(m1) == MonthLabel(m2)
  {
    var r1, r2 := MonthLabel(m1) + ".pdf", MonthLabel(m2) + ".pdf";
    FileNameParts(y1, m1);
    FileNameParts(y2, m2);
    CancelPrefix("sales_report_", y1 + "_" + r1, y2 + "_" + r2);
    BeforeUnderscoreOf(y1, r1);
    BeforeUnderscoreOf(y2, r2);
    assert y1 + "_" + r1 == (y1 + "_") + r1;
    CancelPrefix(y1 + "_", r1, r2);
    CancelSuffix(MonthLabel(m1), MonthLabel(m2), ".pdf");
  }

  /** The thirteen month choices give thirteen different labels. */
  lemma MonthLabelsDistinct(i: int, j: int)
    requires 0 <= i < 13 && 0 <= j < 13 && i != j
    ensures MonthLabel(MonthChoices()[i]) != MonthLabel(MonthChoices()[j])
  {
    var c := MonthChoices();
    if i > 0 && j > 0 {
      assert c[i] == TwoDigits(i) && c[j] == TwoDigits(j);
      if i / 10 == j / 10 {
        assert c[i][1] != c[j][1];
      } else {
        assert c[i][0] != c[j][0];
      }
    } else if i == 0 {
      assert |c[j]| == 2;
    } else {
      assert |c[i]| == 2;
    }
  }

  /** For one year, equal file names mean equal month labels. */
  lemma SameYearLabels(year: string, m1: string, m2: string)
    ensures ExportFileName(year, m1) == ExportFileName(year, m2) ==> MonthLabel(m1) == MonthLabel(m2)
  {
    if ExportFileName(year, m1) == ExportFileName(year, m2) {
      var p := "sales_report_" + year + "_";
      assert ExportFileName(year, m1) == p + (MonthLabel(m1) + ".pdf");
      assert ExportFileName(year, m2) == p + (MonthLabel(m2) + ".pdf");
      CancelPrefix(p, MonthLabel(m1) + ".pdf", MonthLabel(m2) + ".pdf");
      CancelSuffix(MonthLabel(m1), MonthLabel(m2), ".pdf");
    }
  }

  /** The thirteen month choices give one year thirteen different export file names. */
  lemma MonthFileNamesDistinct(year: string, i: int, j: int)
    requires 0 <= i < 13 && 0 <= j < 13 && i != j
    ensures ExportFileName(year, MonthChoices()[i]) != ExportFileName(year, MonthChoices()[j])
  {
    MonthLabelsDistinct(i, j);
    SameYearLabels(year, MonthChoices()[i], MonthChoices()[j]);
  }

  /** What `export_report_pdf` leads to. */
  datatype Export = NoYear | NoRows | PdfFile(name: string)

  /** The report screen: the rows the table shows, as the last report left them. */
  class ReportScreen {
    const db: Database
    var shown: seq<ReportRow>

    constructor(db: Database)
      ensures this.db == db && shown == []
    {
      this.db := db;
      shown := [];
    }

    /** `generate_report`: without a year nothing happens; otherwise the table is cleared and
        filled with the report rows, which may be none. */
    method Generate(year: string, month: string) returns (g: Generated)
      modifies this`shown
      ensures g == GenerateReport(db.sales.rows, db.products.rows, year, month)
      ensures year == [] ==> shown == old(shown)
      ensures year != [] ==> shown == ReportRows(db.sales.rows, db.products.rows, year, month)
    {
      g := GenerateReport(db.sales.rows, db.products.rows, year, month);
      if year == [] {
        return;
      }
      shown := ReportRows(db.sales.rows, db.products.rows, year, month);
    }

    /** `export_report_pdf`: refused without a year or with an empty table; otherwise the
        file `reports/sales_report_{year}_{month or all}.pdf` is written. */
    method ExportReport(year: string, month: string) returns (e: Export)
      ensures year == [] <==> e == NoYear
      ensures e == NoRows <==> year != [] && shown == []
      ensures e.PdfFile? ==> e.name == ExportFileName(year, month)
    {
      if year == [] {
        return NoYear;
      }
      if shown == [] {
        return NoRows;
      }
      return PdfFile(ExportFileName(year, month));
    }
  }
}
