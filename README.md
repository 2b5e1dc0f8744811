# Sales and inventory bookkeeping, modelled in Dafny

This project models the table bookkeeping behind a desktop sales-and-inventory system built on
SQLite. The system keeps ten tables: users, categories, warehouses, products, departments,
suppliers, expenses, debts, damage_products and sales. Screens add, update, delete and search
their rows. Selling goods takes stock off the product. A report groups a year's (or month's)
sales by product. Two migration scripts bring an older database up to the current columns.

The database is an object, `Store.Database`, with one field per table. Each table is a
`Tables.Table<T>`: its rows in id order plus the next autoincrement id. Every row carries
`created_at`, `updated_at` and `is_active`. `Database.Valid()` collects what SQLite enforces:

- every table is well formed;
- the UNIQUE columns are unique: `users.username`, `categories.name`, `products.sku`,
  `departments.name`, `suppliers.name`;
- the foreign keys hold, because `get_connection` turns on `PRAGMA foreign_keys`.

Each screen with a selection field (`current_id`, `selected_id`) is a class. Its handlers are
methods that change only the tables they write. Every handler keeps `Valid()`. Its `ensures`
gives the outcome, and gives the new table as a function of the old one and the form. A
handler can:

- save;
- return silently (`Skipped`);
- show a notice (`Refused`);
- let an exception escape (`Crashed`). The `with get_connection()` block then rolls back, so
  nothing is written.

WHERE clauses that the source builds by appending conditions are built the same way
(`SalesWhere`, `DamageWhere`, `DebtWhere`). Each is proved to select exactly the rows that a
direct statement of the search asks for.

Files, one per source file of the core:

| file | models |
|---|---|
| common.dfy | outcomes, `Option`, the checked-form result |
| text.dfy | `str.strip`, substring search (`LIKE '%t%'`), `int()` and `float()` on text |
| order.dfy | the text order SQLite uses for `ORDER BY` and date bounds; sorting by a key |
| tables.dfy | rows, insert, update and delete by id, UNIQUE columns, references |
| query.dfy | the conditions of a WHERE clause, evaluated on a row |
| store.dfy | the database and its consistency (`database.py`) |
| auth.dfy | `auth.py` |
| users.dfy | `users_frame.py` |
| categories.dfy | `categories_frame.py` |
| departments.dfy | `department_frame.py` |
| suppliers.dfy | `suppliers_frame.py` |
| warehouses.dfy | `warehouse_frame.py` |
| products.dfy | `products_frame.py` |
| expenses.dfy | `expenses_frame.py` |
| debts.dfy | `debt_tracker_frame.py` |
| damage.dfy | `damage_products_frame.py` |
| sales.dfy | `sales_frame.py` |
| inventory.dfy | `inventory_frame.py` |
| dashboard.dfy | `dashboard_frame.py` |
| report.dfy | `report_frame.py` |
| migrations.dfy | `db/migrate_columns.py` and `db/migrate_add_receipt.py` |

Three behaviours of the code are worth stating outright, because the model keeps them:

- Recording damage does not change any product's quantity (damage_products_frame.py:192-198).
- Deleting a sale does not give its quantity back to the product (sales_frame.py:374-376).
- Deleting a product that a sale or damage record refers to, or a department that an expense
  refers to, fails with an integrity error (products_frame.py:165-168,
  department_frame.py:123-125). The foreign keys are enforced and have no `ON DELETE` action.

## Model

| member | source | states |
|---|---|---|
| Tables.Find | database.py:15-133 | a row is found exactly when some row has that id, and the result is that row |
| Tables.Put | database.py:15-133 | `UPDATE ... WHERE id=?`: the row with that id is replaced, every other row is kept in place |
| Tables.Remove | database.py:15-133 | `DELETE ... WHERE id=?`: every other row stays, the row with that id is gone |
| Tables.InsertFacts | database.py:15-133 | an insert keeps the table well formed, adds the row with the next id and `created_at == updated_at == now`, and changes no other id |
| Tables.RewriteFacts | database.py:15-133 | an update of an existing id keeps its `created_at`, sets the new data, `updated_at` and active flag, and changes no other row; an update of a missing id changes nothing |
| Tables.InsertUnique | database.py:25 | inserting keeps a UNIQUE column unique exactly when no row already holds the new value |
| Tables.ReplaceUnique | database.py:35 | updating a row keeps a UNIQUE column unique exactly when no other row holds the new value |
| Tables.DeleteUnique | database.py:53 | a delete keeps a UNIQUE column unique |
| Tables.ChildInsertRefs | database.py:94 | inserting a referring row keeps the references valid exactly when the referenced row exists |
| Tables.ParentRemoveRefs | database.py:117 | deleting a referenced row keeps the references valid exactly when no row refers to it |
| Tables.FilterExactly | database.py:15-133 | a row is selected exactly when it is in the table and satisfies the condition |
| Tables.FilterAscending | database.py:15-133 | selecting rows keeps them in id order |
| Text.Strip | categories_frame.py:70 | the result has no surrounding white space (every character `str.isspace()` accepts: tab to carriage return, the separators `\x1c`–`\x1f`, space, next line, no-break space and the Unicode spaces), is empty exactly when the text is all white space, and is the text itself when there is none to remove |
| Text.ContainsIff | categories_frame.py:57-62 | `LIKE '%t%'` holds exactly when `t` occurs at some position of the text |
| Text.ParseIntRoundTrip | sales_frame.py:289 | `int()` reads back every integer's decimal text |
| Text.IntegersAreNumbers | products_frame.py:134 | text `int()` accepts, `float()` accepts with the same value |
| Store.Database.constructor | database.py:15-133 | a new database is consistent and every table is empty |
| Auth.AuthenticateFails | auth.py:24-32 | login fails exactly when no user has that username and the hash of that password |
| Auth.AuthenticateSound | auth.py:24-32 | a successful login returns the account of a user with that username and password hash |
| Auth.AuthenticateFinds | auth.py:24-32 | with usernames unique, a matching user is the one returned |
| Auth.RegisterValid | auth.py:7-22 | registering keeps the database consistent exactly when the username is free |
| Auth.RegisterUser | auth.py:7-22 | succeeds exactly when the username is free; then it inserts the user with the hashed password, the role is `admin` exactly when the table was empty and `user` otherwise; on failure nothing changes |
| Auth.LoginAfterRegister | auth.py:7-32 | after registering, logging in with the same username and password returns the new account with its assigned role |
| UserScreens.UpdatedFacts | users_frame.py:139-163 | an update sets names, username, role, active flag and `updated_at` of the picked user only; a blank password keeps the stored one, any other is replaced by its hash |
| UserScreens.ListingExactly | users_frame.py:71-99 | a user is listed exactly when some column, as text, contains the trimmed term; every user for a blank term |
| UserScreens.UsernameFinds | users_frame.py:87-92 | a user whose username contains the term is listed |
| UserScreens.AddUserValid | users_frame.py:114-129 | inserting a user with a free username keeps the database consistent |
| UserScreens.UpdateUserValid | users_frame.py:139-163 | an update that takes no other user's username keeps the database consistent |
| UserScreens.AddUser | users_frame.py:114-129 | a blank field is refused, a taken username is refused as a duplicate, and neither changes anything; otherwise the user is inserted with the hashed password |
| UserScreens.UpdateUser | users_frame.py:139-163 | without a pick a notice; a blank field or another user's username is refused with no change; otherwise the picked user is updated as `UpdatedFacts` states |
| UserScreens.DeleteUser | users_frame.py:131-137 | without a pick nothing happens; otherwise the picked user is deleted |
| UserScreens.LoadUsers | users_frame.py:71-99 | returns the listing `ListingExactly` describes |
| CategoryScreens.ListingExactly | categories_frame.py:52-67 | the list is ordered by name and holds exactly the categories whose name contains the trimmed term |
| CategoryScreens.AddCategoryValid | categories_frame.py:69-86 | inserting a category with a free name keeps the database consistent |
| CategoryScreens.RenameCategoryValid | categories_frame.py:100-119 | renaming to a name no other category has keeps the database consistent |
| CategoryScreens.CategoriesScreen.constructor | categories_frame.py:8 | the screen starts with nothing selected |
| CategoryScreens.CategoriesScreen.Select | categories_frame.py:88-99 | picking a row selects its id |
| CategoryScreens.CategoriesScreen.ClearForm | categories_frame.py:121-126 | clearing the form drops the selection |
| CategoryScreens.CategoriesScreen.LoadCategories | categories_frame.py:52-67 | returns the listing `ListingExactly` describes |
| CategoryScreens.CategoriesScreen.AddCategory | categories_frame.py:69-86 | a blank name or a taken name is refused with no change; otherwise the trimmed name is inserted and the form cleared |
| CategoryScreens.CategoriesScreen.UpdateCategory | categories_frame.py:100-119 | without a selection nothing happens; a blank name or another category's name is refused with no change; otherwise the selected category is renamed and the form cleared |
| DepartmentScreens.ListingExactly | department_frame.py:50-60 | the list is ordered by name and holds exactly the departments whose name contains the trimmed term, all of them for a blank term |
| DepartmentScreens.AddDepartmentValid | department_frame.py:83-99 | inserting a department with a free name keeps the database consistent |
| DepartmentScreens.RenameDepartmentValid | department_frame.py:101-116 | renaming keeps the database consistent exactly when no other department has the name |
| DepartmentScreens.DeleteDepartmentAllowed | department_frame.py:118-126 | deleting keeps the database consistent exactly when no expense refers to the department |
| DepartmentScreens.DepartmentsScreen.constructor | department_frame.py:9 | the screen starts with nothing selected |
| DepartmentScreens.DepartmentsScreen.Select | department_frame.py:68-73 | picking a row selects its id |
| DepartmentScreens.DepartmentsScreen.LoadDepartments | department_frame.py:50-60 | returns the listing `ListingExactly` describes |
| DepartmentScreens.DepartmentsScreen.AddDepartment | department_frame.py:83-99 | a blank or taken name is refused with no change; otherwise the trimmed name is inserted |
| DepartmentScreens.DepartmentsScreen.UpdateDepartment | department_frame.py:101-116 | without a selection nothing happens; a blank name is refused; another department's name raises an integrity error; neither changes anything; otherwise name, active flag and `updated_at` are set |
| DepartmentScreens.DepartmentsScreen.DeleteDepartment | department_frame.py:118-126 | without a pick nothing happens; a department an expense refers to raises an integrity error with no change; otherwise it is deleted |
| SupplierScreens.ListingExactly | suppliers_frame.py:74-91 | a supplier is listed exactly when its name, contact, phone or email contains the trimmed term; all of them for a blank term |
| SupplierScreens.ListingInIdOrder | suppliers_frame.py:74-91 | the list is in id order |
| SupplierScreens.AddSupplierValid | suppliers_frame.py:125-150 | inserting keeps the database consistent exactly when the name is free |
| SupplierScreens.UpdateSupplierValid | suppliers_frame.py:152-178 | an update keeps the database consistent exactly when no other supplier has the name |
| SupplierScreens.SuppliersScreen.constructor | suppliers_frame.py:10 | the screen starts with nothing picked |
| SupplierScreens.SuppliersScreen.Select | suppliers_frame.py:103-108 | picking a row makes its id the current one |
| SupplierScreens.SuppliersScreen.LoadSuppliers | suppliers_frame.py:74-91 | returns the listing `ListingExactly` describes |
| SupplierScreens.SuppliersScreen.AddSupplier | suppliers_frame.py:125-150 | any blank field is refused, a taken name is refused as a duplicate, neither changes anything; otherwise the supplier is inserted |
| SupplierScreens.SuppliersScreen.UpdateSupplier | suppliers_frame.py:152-178 | without a pick a notice; there is no check for blank fields; another supplier's name is refused with no change; otherwise every listed column is set and `created_at` kept |
| SupplierScreens.SuppliersScreen.DeleteSupplier | suppliers_frame.py:180-189 | without a pick nothing happens; otherwise the picked supplier is deleted |
| SupplierScreens.UpdateAfterDelete | suppliers_frame.py:152-189 | `current_id` survives a delete, and a later update of the deleted id changes nothing |
| WarehouseScreens.CheckWarehouseMeaning | warehouse_frame.py:124-176 | a form is accepted exactly when name, location and capacity are filled and the capacity is an integer, and it becomes that warehouse |
| WarehouseScreens.ListingExactly | warehouse_frame.py:76-88 | a warehouse is listed exactly when its name or location contains the trimmed term, all of them for a blank term, in id order |
| WarehouseScreens.AddWarehouseValid | warehouse_frame.py:124-148 | inserting a warehouse keeps the database consistent |
| WarehouseScreens.UpdateWarehouseValid | warehouse_frame.py:150-176 | updating a warehouse keeps the database consistent |
| WarehouseScreens.WarehousesScreen.constructor | warehouse_frame.py:10 | the screen starts with nothing picked |
| WarehouseScreens.WarehousesScreen.Select | warehouse_frame.py:100-105 | picking a row makes its id the current one |
| WarehouseScreens.WarehousesScreen.LoadWarehouses | warehouse_frame.py:76-88 | returns the listing `ListingExactly` describes |
| WarehouseScreens.WarehousesScreen.AddWarehouse | warehouse_frame.py:124-148 | a rejected form shows its notice with no change; otherwise the warehouse is inserted with `created_at == updated_at == now` |
| WarehouseScreens.WarehousesScreen.UpdateWarehouse | warehouse_frame.py:150-176 | without a pick nothing happens; a rejected form changes nothing; otherwise name, location, capacity, active flag and `updated_at` of the picked warehouse are set |
| ProductScreens.ActiveNamesFound | products_frame.py:100-126 | a name is offered in the choice box exactly when an active row has it |
| ProductScreens.CheckProductRejects | products_frame.py:128-159 | a blank field other than description is refused; a cost, price or quantity that does not parse is refused; a category or warehouse with no active row of that name raises; nothing else rejects |
| ProductScreens.CheckProductAccepts | products_frame.py:128-159 | a form is accepted exactly when it is filled, numeric, and its category and warehouse name active rows; the product gets the form's texts, the parsed numbers and the ids of those rows |
| ProductScreens.InsertProductValid | products_frame.py:145-159 | inserting a product with a free SKU and existing category and warehouse keeps the database consistent |
| ProductScreens.RewriteProductValid | products_frame.py:145-159 | overwriting with a SKU no other product has keeps the database consistent |
| ProductScreens.DeleteProductAllowed | products_frame.py:161-169 | deleting keeps the database consistent exactly when no sale and no damage record refers to the product |
| ProductScreens.PickedExactly | products_frame.py:121 | a product is picked exactly when its name or SKU contains the term |
| ProductScreens.ListingExactly | products_frame.py:100-126 | every matching product has its line |
| ProductScreens.ListingSound | products_frame.py:100-126 | every line is the line of a matching product |
| ProductScreens.ProductsScreen.constructor | products_frame.py:77 | the screen starts with nothing selected |
| ProductScreens.ProductsScreen.Select | products_frame.py:80-86 | picking a row selects its id |
| ProductScreens.ProductsScreen.LoadProducts | products_frame.py:100-126 | the choice boxes hold the active category and warehouse names, and the list is the listing above |
| ProductScreens.ProductsScreen.AddOrUpdate | products_frame.py:128-159 | a rejected form changes nothing; without a selection the product is inserted, with one the selected row is overwritten, quantity included; a SKU another product holds is refused as a duplicate with no change |
| ProductScreens.ProductsScreen.DeleteProduct | products_frame.py:161-169 | without a pick nothing happens; a product a sale or damage record refers to raises an integrity error with no change; otherwise it is deleted |
| ExpenseScreens.CheckExpenseMeaning | expenses_frame.py:148-207 | a blank field, an amount that is not a number or an unknown department is refused, each exactly in its case; an accepted form becomes the expense charged to a department of that name |
| ExpenseScreens.ListingCovers | expenses_frame.py:89-107 | every expense matching the term on date or description has its line, and that line names its department |
| ExpenseScreens.ListingSound | expenses_frame.py:89-107 | every line is the line of a matching expense |
| ExpenseScreens.AddExpenseValid | expenses_frame.py:148-175 | inserting an expense charged to an existing department keeps the database consistent |
| ExpenseScreens.UpdateExpenseValid | expenses_frame.py:177-207 | overwriting an expense with one charged to an existing department keeps the database consistent |
| ExpenseScreens.ExpensesScreen.constructor | expenses_frame.py:11 | the screen starts with nothing picked |
| ExpenseScreens.ExpensesScreen.Select | expenses_frame.py:125-130 | picking a row makes its id the current one |
| ExpenseScreens.ExpensesScreen.LoadExpenses | expenses_frame.py:89-107 | the choice box holds the department names in id order, and the list is the listing above |
| ExpenseScreens.ExpensesScreen.AddExpense | expenses_frame.py:148-175 | a rejected form shows its notice with no change; otherwise the expense is inserted |
| ExpenseScreens.ExpensesScreen.UpdateExpense | expenses_frame.py:177-207 | without a pick a notice; a rejected form changes nothing; otherwise date, department, description, amount, active flag and `updated_at` are set and `created_at` kept |
| ExpenseScreens.ExpensesScreen.DeleteExpense | expenses_frame.py:209-218 | without a pick a notice; otherwise the picked expense is deleted |
| DebtScreens.CheckDebtMeaning | debt_tracker_frame.py:158-187 | a form with a blank field is refused; a filled one whose amount is not a number raises; otherwise it becomes the debt with the form's texts and the parsed amount |
| DebtScreens.DebtWhere | debt_tracker_frame.py:95-122 | the WHERE clause built by appending holds for a debt exactly when its name or status contains the term, its due date is the given one when one is given, and its active flag matches the filter |
| DebtScreens.MatchingIsWanted | debt_tracker_frame.py:95-122 | the rows that clause selects, ordered by due date, are the debts the search asks for |
| DebtScreens.WantedExactly | debt_tracker_frame.py:116 | the list is in ascending due date and holds exactly the debts the search asks for |
| DebtScreens.AddDebtValid | debt_tracker_frame.py:158-171 | inserting a debt keeps the database consistent |
| DebtScreens.UpdateDebtValid | debt_tracker_frame.py:173-187 | updating a debt keeps the database consistent |
| DebtScreens.DebtsScreen.constructor | debt_tracker_frame.py:10 | the screen starts with nothing picked |
| DebtScreens.DebtsScreen.Select | debt_tracker_frame.py:135-139 | picking a row makes its id the current one |
| DebtScreens.DebtsScreen.LoadDebts | debt_tracker_frame.py:95-122 | returns the debts the search asks for, by due date |
| DebtScreens.DebtsScreen.AddDebt | debt_tracker_frame.py:158-171 | a rejected form shows its notice or raises with no change; otherwise the debt is inserted with `created_at == updated_at == now` |
| DebtScreens.DebtsScreen.UpdateDebt | debt_tracker_frame.py:173-187 | without a pick nothing happens; a rejected form changes nothing; otherwise name, amount, due date, status, active flag and `updated_at` are set |
| DamageScreens.DamageWhere | damage_products_frame.py:99-144 | the WHERE clause built by appending holds exactly when product name or reason contains the term, the product is the chosen one unless `All`, and the date lies within the given bounds |
| DamageScreens.MatchingIsWanted | damage_products_frame.py:99-144 | the rows that clause selects are the damage records the search asks for |
| DamageScreens.WantedInIdOrder | damage_products_frame.py:116-137 | the list is in ascending id |
| DamageScreens.CheckDamageOutcomes | damage_products_frame.py:182-223 | a blank field is refused; an unknown product name raises; a quantity that is not an integer raises; a form is accepted exactly when none of these applies, and it becomes a record of that product, date, quantity and reason |
| DamageScreens.AddDamageValid | damage_products_frame.py:182-201 | inserting a record of an existing product keeps the database consistent |
| DamageScreens.UpdateDamageValid | damage_products_frame.py:202-223 | overwriting a record with one of an existing product keeps the database consistent |
| DamageScreens.DeleteDamageValid | damage_products_frame.py:224-233 | deleting a record keeps the database consistent |
| DamageScreens.DamageScreen.constructor | damage_products_frame.py:10 | the screen starts with nothing picked |
| DamageScreens.DamageScreen.Select | damage_products_frame.py:157-162 | picking a row makes its id the current one |
| DamageScreens.DamageScreen.LoadDamage | damage_products_frame.py:99-144 | the product choices are `All` and the product names in id order; the list is the records the search asks for |
| DamageScreens.DamageScreen.AddDamage | damage_products_frame.py:182-201 | a rejected form shows its notice or raises with no change; otherwise one record is inserted and no product changes |
| DamageScreens.DamageScreen.UpdateDamage | damage_products_frame.py:202-223 | without a pick nothing happens; a rejected form changes nothing; otherwise product, date, quantity, reason, active flag and `updated_at` of the picked record are set |
| DamageScreens.DamageScreen.DeleteDamage | damage_products_frame.py:224-233 | without a pick nothing happens; otherwise only the picked record is deleted |
| Sales.ProductLabels | sales_frame.py:163-168 | one `"id: name"` label per product, in order |
| Sales.LabelRoundTrip | sales_frame.py:166-168 | reading the id back from a product's label gives that product's id |
| Sales.WithdrawStock | sales_frame.py:292-302 | taking stock off a product lowers its quantity by that amount and leaves every other product's quantity alone |
| Sales.WithdrawNothing | sales_frame.py:330-353 | taking nothing off leaves the products as they were |
| Sales.AddSaleKeepsBalance | sales_frame.py:279-309 | adding a sale keeps every product's quantity plus the quantity of its sales |
| Sales.UpdateSaleKeepsBalance | sales_frame.py:310-365 | correcting a sale's quantity and taking the difference off its product keeps every product's balance |
| Sales.DeleteSaleShiftsBalance | sales_frame.py:366-382 | deleting a sale lowers its product's balance by the sale's quantity: the stock is not given back |
| Sales.SoldPut | sales_frame.py:330-353 | replacing a sale changes the product's sold total by the new quantity less the old |
| Sales.SalesWhere | sales_frame.py:159-217 | the WHERE clause built by appending holds exactly when the product name contains the term, the date lies within the given bounds, and the active flag matches the filter |
| Sales.MatchingIsWanted | sales_frame.py:159-217 | the rows that clause selects are the sales the search asks for |
| Sales.AddSaleValid | sales_frame.py:279-309 | inserting a sale of an existing product and taking its quantity off keeps the database consistent |
| Sales.UpdateSaleValid | sales_frame.py:310-365 | replacing a sale and adjusting its product keeps the database consistent |
| Sales.DeleteSaleValid | sales_frame.py:366-382 | deleting a sale keeps the database consistent |
| Sales.SalesScreen.constructor | sales_frame.py:16-33 | the screen is an admin's exactly when the role, lower-cased, is `admin`, and starts with nothing picked |
| Sales.SalesScreen.Select | sales_frame.py:242-247 | picking a row makes its id the current sale |
| Sales.SalesScreen.LoadSales | sales_frame.py:159-217 | one label per product that reads back as its id; the list is in descending date and holds the sales the search asks for, each as often |
| Sales.SalesScreen.AddSale | sales_frame.py:279-309 | a blank field is refused, a bad product label or quantity raises, a product id that does not exist raises an integrity error, none of these changes anything; otherwise one sale is inserted, its quantity comes off the product, and every balance is kept |
| Sales.SalesScreen.UpdateSale | sales_frame.py:310-365 | refused for non-admins; nothing happens without a pick; a bad quantity raises; otherwise receipt number, quantity, notes, active flag and `updated_at` are set, product, date and `created_at` kept, the difference comes off the product, and every balance is kept |
| Sales.SalesScreen.DeleteSale | sales_frame.py:366-382 | refused for non-admins; nothing happens without a pick; otherwise only that sale is deleted |
| Inventory.PickedExactly | inventory_frame.py:38-54 | a product is listed exactly when its name contains the term |
| Inventory.LinesCover | inventory_frame.py:38-54 | every matching product has its line, with or without a category |
| Inventory.LinesSound | inventory_frame.py:38-54 | every line belongs to a matching product, shows its stored quantity, its damaged total and its sold total |
| Inventory.LinesInIdOrder | inventory_frame.py:44 | the lines are in ascending product id |
| Inventory.NoDamageIsZero | inventory_frame.py:45 | a product with no damage records shows 0 damaged |
| Inventory.NoSalesIsZero | inventory_frame.py:46 | a product with no sales shows 0 sold |
| Inventory.SoldIgnoresActive | inventory_frame.py:46 | the sold total counts inactive sales too |
| Inventory.DamagedIgnoresActive | inventory_frame.py:45 | the damaged total counts inactive records too: flipping the active flag of any stored damage row leaves every product's damaged sum as it was |
| Dashboard.ActiveProductsBound | dashboard_frame.py:61-65 | the active count is at most the number of products, and equal exactly when all are active |
| Dashboard.TotalQuantityIgnoresActive | dashboard_frame.py:66-70 | the quantity total does not depend on the active flags |
| Dashboard.CountsIgnoreActive | dashboard_frame.py:79-87 | the category and supplier counters count every row: switching any row's active flag leaves them unchanged |
| Dashboard.TotalQuantityAppend | dashboard_frame.py:66-70 | the quantity total adds up over the products |
| Dashboard.MaxQuantityIsMaximum | dashboard_frame.py:94-98 | the largest quantity is 0 without products, otherwise some product's quantity and no smaller than any |
| Dashboard.LowStockAll | dashboard_frame.py:99-106 | the low-stock count is at most the number of products, and equal exactly when every quantity is at most 5 |
| Dashboard.LowStockBound | dashboard_frame.py:99-106 | every product is low on stock exactly when there are none or the largest quantity is at most 5 |
| Dashboard.TotalSalesAppend | dashboard_frame.py:71-78 | the sales total adds up over the sales |
| Report.MonthChoices | report_frame.py:32 | the month box offers `All` and then `01` to `12` |
| Report.GenerateReport | report_frame.py:76-131 | no year gives the no-year outcome; no counted sale gives the no-data outcome; otherwise the report rows, which are never empty |
| Report.ReportSorted | report_frame.py:86-97 | the rows are in strictly ascending product name: one row per name |
| Report.ReportCovers | report_frame.py:86-97 | every row is a counted product name with its total quantity, and every counted sale's product has a row |
| Report.ReportQtyConserved | report_frame.py:86-97 | the rows' quantities add up to the quantity of the counted sales |
| Report.InactiveSaleIgnored | report_frame.py:94-95 | an inactive sale contributes nothing |
| Report.EmptyReport | report_frame.py:120-130 | the report has no rows exactly when no sale is counted |
| Report.ReportYearsFacts | report_frame.py:67-75 | the year box holds the distinct sale years in strictly descending order |
| Report.DefaultYear | report_frame.py:67-75 | a year is chosen exactly when there is one, and it is among them |
| Report.DefaultIsLatest | report_frame.py:67-75 | the chosen year is the latest sale year |
| Report.FileNameDeterminesPeriod | report_frame.py:145-147 | two exports with the same file name have the same year and month label |
| Report.MonthLabelsDistinct | report_frame.py:145-147 | the thirteen month choices have thirteen different file-name labels |
| Report.SameYearLabels | report_frame.py:145-147 | for one year, equal export file names mean equal month labels |
| Report.MonthFileNamesDistinct | report_frame.py:145-147 | the thirteen month choices give one year thirteen different export file names |
| Report.ReportScreen.constructor | report_frame.py:12-15 | the screen starts with an empty report table |
| Report.ReportScreen.Generate | report_frame.py:76-131 | without a year the table is left alone; otherwise it shows the report rows, possibly none |
| Report.ReportScreen.ExportReport | report_frame.py:132-172 | refused without a year, refused when the table is empty, otherwise the file `sales_report_{year}_{month or all}.pdf` |
| Migrations.StampedKeeps | db/migrate_columns.py:20-43 | the existing columns are kept in place, and every added column is one of the three and new |
| Migrations.StampedAdds | db/migrate_columns.py:24-43 | afterwards the table has all three columns, and each one that was missing is added with its type, NOT NULL and default (`is_active` defaults to 1) |
| Migrations.StampedIdempotent | db/migrate_columns.py:24-43 | adding the three columns twice is adding them once |
| Migrations.TriggerNameInjective | db/migrate_columns.py:45 | different tables get different trigger names |
| Migrations.MigrateStops | db/migrate_columns.py:20-56 | no table appears or disappears; the run completes exactly when every listed table exists, otherwise it stops at a listed table that is missing; unlisted tables keep their columns |
| Migrations.MigrateKeepsColumns | db/migrate_columns.py:22-43 | no column is removed or changed |
| Migrations.MigrateSettles | db/migrate_columns.py:11-56 | after a complete run every listed table has the three columns and its trigger `{table}_updated_at` on itself |
| Migrations.MigrateKeepsOtherTriggers | db/migrate_columns.py:45-56 | triggers not named after a listed table are untouched |
| Migrations.MigrateSettledNoop | db/migrate_columns.py:20-56 | on a migrated database the run changes nothing |
| Migrations.MigrateIdempotent | db/migrate_columns.py:20-56 | running the migration again after a complete run changes nothing |
| Migrations.Schema.constructor | db/migrate_columns.py:17-18 | the schema is the catalog of columns and triggers the database already has |
| Migrations.Schema.AddColumnIfMissing | db/migrate_columns.py:24-29 | the column is appended to that one table exactly when its name is not among the names read before; nothing else changes |
| Migrations.Schema.AddStampColumns | db/migrate_columns.py:21-43 | one table gets the missing columns, the others are untouched |
| Migrations.Schema.RecreateTrigger | db/migrate_columns.py:45-56 | drop-then-create leaves exactly one trigger of that name, on that table |
| Migrations.Schema.MigrateAddColumns | db/migrate_columns.py:10-58 | the loop over the ten tables ends in the catalog and stopping point the recursive definition gives |
| Migrations.WithReceiptFacts | db/migrate_add_receipt.py:9-21 | the sales columns are kept in place; afterwards `receipt_no` and `notes` exist, each added as nullable text with default `''` exactly when missing |
| Migrations.AddReceiptOnlySales | db/migrate_add_receipt.py:9 | only the sales table changes |
| Migrations.AddReceiptIdempotent | db/migrate_add_receipt.py:11-21 | running the receipt migration twice is running it once |
| Migrations.Schema.MigrateAddReceipt | db/migrate_add_receipt.py:5-25 | reports whether the sales table exists and changes the columns as the function above does |

## Left out

- Widgets and layout are not modelled: tree refills, choice boxes, notices, button states, the
  login and register screens, the menu and `main.py`. Copying a picked row into the form is
  modelled only as the selection it sets.
- The department screen's `on_select` fails after setting `selected_id`. It touches widgets the
  screen does not have. Only the selection it sets is modelled.
- The screens draw the report and product PDFs with FPDF. Only the report's file name and the
  export guards are modelled.
- Running the migration scripts (`git`, `runpy`, the two `apply_migrations` definitions, of
  which the second shadows the first) is process and file handling and is not modelled.
- Each handler is one atomic step on in-memory tables. Opening and closing connections,
  commits and rollbacks are left out.
- The trigger `{table}_updated_at` is modelled by which table it is on. What it does at run
  time is left out: after every update it sets `updated_at` once more.
- Trigger names are keys of a map, since SQLite keeps them unique per database.
- `hash_password` (SHA-256) is a function-valued parameter. Nothing assumes it is injective.
- The clock `datetime.now()` is a parameter `now`.
- Money is an exact `real`. Float rounding and the `:.2f` formatting are left out.
- Text.ParseInt: reads only an optional sign and ASCII digits. Python's `int()` also takes
  underscores between digits (`"1_0"` is 10) and non-ASCII decimal digits; the model refuses
  such text with `ValueError`.
- Text.ParseNumber: reads only an optional sign, ASCII digits and an optional fraction.
  `float()` also takes exponents, `inf`, `nan`, underscores between digits and non-ASCII
  decimal digits.
- Sales.SalesScreen.AddSale: Python's `sqlite3` raises `OverflowError` when it binds an integer
  outside the signed 64-bit range. The model has no such bound, so a quantity or product id
  outside that range is written instead of failing.
- Sales.SalesScreen.UpdateSale: the same 64-bit bound on the new quantity is not modelled.
- ProductScreens.ProductsScreen.AddOrUpdate: the same 64-bit bound on the quantity is not
  modelled.
- DamageScreens.DamageScreen.AddDamage: the same 64-bit bound on the quantity is not modelled.
- DamageScreens.DamageScreen.UpdateDamage: the same 64-bit bound on the quantity is not
  modelled.
- WarehouseScreens.WarehousesScreen.AddWarehouse: the same 64-bit bound on the capacity is not
  modelled.
- WarehouseScreens.WarehousesScreen.UpdateWarehouse: the same 64-bit bound on the capacity is
  not modelled.
- `LIKE '%t%'` is substring containment. SQLite's ASCII case folding and `%` or `_` inside the
  term are left out.
- Dates are text compared in SQLite's text order. `strftime('%Y')` and `strftime('%m')` are
  the first four characters and characters six and seven.
- Rows come back in id order where the query has no `ORDER BY`.
- Dashboard: the float totals of sales and expenses are exact sums. The sales-by-category and
  expenses-by-department charts are drawing code and are left out.
- Migrations.Stamped: on a table that has rows, SQLite refuses `ALTER TABLE ... ADD COLUMN`
  with a non-constant default such as `CURRENT_TIMESTAMP`. The model treats the statement as
  adding the column, which is what an empty table gets.
- Migrations.Schema.MigrateAddColumns: a listed table that does not exist stops the run with
  the earlier tables already changed. DDL runs outside a transaction here. The error itself
  is only the returned stopping point.
- Migrations: nothing is proved about column names staying distinct.
