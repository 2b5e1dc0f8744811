/** The application's SQLite database: the records of its ten tables, the UNIQUE columns and
    FOREIGN KEY references the schema declares, and one object holding every table. */
module Store {
  import opened Tables

  datatype User = User(firstName: string, lastName: string, username: string, password: string, role: string)
  datatype Category = Category(name: string)
  datatype Warehouse = Warehouse(name: string, location: string, capacity: int)
  datatype Product = Product(
    sku: string, name: string, description: string, categoryId: int,
    costPrice: real, price: real, quantity: int, warehouseId: int)
  datatype Department = Department(name: string)
  datatype Supplier = Supplier(name: string, contact: string, phone: string, email: string, address: string)
  datatype Expense = Expense(date: string, departmentId: int, description: string, amount: real)
  datatype Debt = Debt(name: string, amount: real, dueDate: string, status: string)
  datatype Damage = Damage(prodId: int, date: string, qty: int, reason: string)
  datatype Sale = Sale(receiptNo: string, date: string, prodId: int, qty: int, notes: string)

  // The UNIQUE columns.
  function Username(u: User): string { u.username }
  function CategoryName(c: Category): string { c.name }
  function Sku(p: Product): string { p.sku }
  function DepartmentName(d: Department): string { d.name }
  function SupplierName(s: Supplier): string { s.name }

  // The FOREIGN KEY columns.
  function ProductCategory(p: Product): int { p.categoryId }
  function ProductWarehouse(p: Product): int { p.warehouseId }
  function ExpenseDepartment(e: Expense): int { e.departmentId }
  function DamageProduct(d: Damage): int { d.prodId }
  function SaleProduct(s: Sale): int { s.prodId }

  predicate UsersOk(users: Table<User>) {
    WellFormed(users) && UniqueKey(users.rows, Username)
  }

  predicate CategoriesOk(categories: Table<Category>) {
    WellFormed(categories) && UniqueKey(categories.rows, CategoryName)
  }

  predicate ProductsOk(products: Table<Product>, categories: Table<Category>, warehouses: Table<Warehouse>) {
    WellFormed(products) && UniqueKey(products.rows, Sku) &&
    RefsValid(products.rows, ProductCategory, categories.rows) &&
    RefsValid(products.rows, ProductWarehouse, warehouses.rows)
  }

  predicate DepartmentsOk(departments: Table<Department>) {
    WellFormed(departments) && UniqueKey(departments.rows, DepartmentName)
  }

  predicate SuppliersOk(suppliers: Table<Supplier>) {
    WellFormed(suppliers) && UniqueKey(suppliers.rows, SupplierName)
  }

  predicate ExpensesOk(expenses: Table<Expense>, departments: Table<Department>) {
    WellFormed(expenses) && RefsValid(expenses.rows, ExpenseDepartment, departments.rows)
  }

  predicate DamageOk(damage: Table<Damage>, products: Table<Product>) {
    WellFormed(damage) && RefsValid(damage.rows, DamageProduct, products.rows)
  }

  predicate SalesOk(sales: Table<Sale>, products: Table<Product>) {
    WellFormed(sales) && RefsValid(sales.rows, SaleProduct, products.rows)
  }

  /** What SQLite maintains across the ten tables: ids, UNIQUE columns and FOREIGN KEY
      references. */
  predicate Consistent(
    users: Table<User>, categories: Table<Category>, warehouses: Table<Warehouse>, products: Table<Product>,
    departments: Table<Department>, suppliers: Table<Supplier>, expenses: Table<Expense>, debts: Table<Debt>,
    damage: Table<Damage>, sales: Table<Sale>)
  {
    UsersOk(users) && CategoriesOk(categories) && WellFormed(warehouses) &&
    ProductsOk(products, categories, warehouses) && DepartmentsOk(departments) &&
    SuppliersOk(suppliers) && ExpensesOk(expenses, departments) && WellFormed(debts) &&
    DamageOk(damage, products) && SalesOk(sales, products)
  }

  /** The whole database, one field per table. The screens change it in place. */
  class Database {
    var users: Table<User>
    var categories: Table<Category>
    var warehouses: Table<Warehouse>
    var products: Table<Product>
    var departments: Table<Department>
    var suppliers: Table<Supplier>
    var expenses: Table<Expense>
    var debts: Table<Debt>
    var damage: Table<Damage>
    var sales: Table<Sale>

    ghost predicate Valid()
      reads this
    {
      Consistent(users, categories, warehouses, products, departments, suppliers, expenses, debts, damage, sales)
    }

    /** A database whose schema has just been created: every table empty. */
    constructor()
      ensures Valid()
      ensures users.rows == [] && categories.rows == [] && warehouses.rows == []
      ensures products.rows == [] && departments.rows == [] && suppliers.rows == []
      ensures expenses.rows == [] && debts.rows == [] && damage.rows == [] && sales.rows == []
    {
      users := Empty();
      categories := Empty();
      warehouses := Empty();
      products := Empty();
      departments := Empty();
      suppliers := Empty();
      expenses := Empty();
      debts := Empty();
      damage := Empty();
      sales := Empty();
    }

    // Committing a transaction: the tables it wrote take their new contents, provided SQLite
    // would accept them; every other table stays as it was.

    method CommitUsers(t: Table<User>)
      requires Consistent(t, categories, warehouses, products, departments, suppliers, expenses, debts, damage, sales)
      modifies this`users
      ensures Valid() && users == t
    {
      users := t;
    }

    method CommitCategories(t: Table<Category>)
      requires Consistent(users, t, warehouses, products, departments, suppliers, expenses, debts, damage, sales)
      modifies this`categories
      ensures Valid() && categories == t
    {
      categories := t;
    }

    method CommitWarehouses(t: Table<Warehouse>)
      requires Consistent(users, categories, t, products, departments, suppliers, expenses, debts, damage, sales)
      modifies this`warehouses
      ensures Valid() && warehouses == t
    {
      warehouses := t;
    }

    method CommitProducts(t: Table<Product>)
      requires Consistent(users, categories, warehouses, t, departments, suppliers, expenses, debts, damage, sales)
      modifies this`products
      ensures Valid() && products == t
    {
      products := t;
    }

    method CommitDepartments(t: Table<Department>)
      requires Consistent(users, categories, warehouses, products, t, suppliers, expenses, debts, damage, sales)
      modifies this`departments
      ensures Valid() && departments == t
    {
      departments := t;
    }

    method CommitSuppliers(t: Table<Supplier>)
      requires Consistent(users, categories, warehouses, products, departments, t, expenses, debts, damage, sales)
      modifies this`suppliers
      ensures Valid() && suppliers == t
    {
      suppliers := t;
    }

    method CommitExpenses(t: Table<Expense>)
      requires Consistent(users, categories, warehouses, products, departments, suppliers, t, debts, damage, sales)
      modifies this`expenses
      ensures Valid() && expenses == t
    {
      expenses := t;
    }

    method CommitDebts(t: Table<Debt>)
      requires Consistent(users, categories, warehouses, products, departments, suppliers, expenses, t, damage, sales)
      modifies this`debts
      ensures Valid() && debts == t
    {
      debts := t;
    }

    method CommitDamage(t: Table<Damage>)
      requires Consistent(users, categories, warehouses, products, departments, suppliers, expenses, debts, t, sales)
      modifies this`damage
      ensures Valid() && damage == t
    {
      damage := t;
    }

    method CommitSales(t: Table<Sale>)
      requires Consistent(users, categories, warehouses, products, departments, suppliers, expenses, debts, damage, t)
      modifies this`sales
      ensures Valid() && sales == t
    {
      sales := t;
    }

    /** A sale and the stock it moves are written in one transaction. */
    method CommitSale(p: Table<Product>, t: Table<Sale>)
      requires Consistent(users, categories, warehouses, p, departments, suppliers, expenses, debts, damage, t)
      modifies this`products, this`sales
      ensures Valid() && products == p && sales == t
    {
      products, sales := p, t;
    }
  }
}
