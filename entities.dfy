/** The rows of the four tables the controllers use, with their primary keys. */
module Entities {
  import opened Tables

  /** A customer; `customerId` (at most five characters in the schema) is the
      key, `companyName` is required, every other field may be null. */
  datatype Customer = Customer(
    customerId: string,
    companyName: string,
    contactName: Option<string>,
    contactTitle: Option<string>,
    address: Option<string>,
    city: Option<string>,
    region: Option<string>,
    postalCode: Option<string>,
    country: Option<string>,
    phone: Option<string>,
    fax: Option<string>)

  /** An order; `orderId` is the key (supplied by the caller, never generated)
      and `customerId` is the foreign key to its customer. */
  datatype Order = Order(orderId: int, customerId: string, shipName: Option<string>)

  /** A product; `categoryId` is the optional foreign key to its category. */
  datatype Product = Product(
    productId: int,
    productName: string,
    supplierId: Option<int>,
    categoryId: Option<int>,
    quantityPerUnit: Option<string>,
    unitPrice: Option<real>,
    unitsInStock: Option<int>,
    unitsOnOrder: Option<int>,
    reorderLevel: Option<int>,
    discontinued: bool)

  datatype Category = Category(categoryId: int, categoryName: string)

  /** The anonymous row the product queries project a product and its
      category into: every product field plus the category's name. */
  datatype ProductRow = ProductRow(
    productId: int,
    productName: string,
    supplierId: Option<int>,
    categoryId: Option<int>,
    categoryName: string,
    quantityPerUnit: Option<string>,
    unitPrice: Option<real>,
    unitsInStock: Option<int>,
    unitsOnOrder: Option<int>,
    reorderLevel: Option<int>,
    discontinued: bool)

  function CustomerKey(c: Customer): string { c.customerId }
  function OrderKey(o: Order): int { o.orderId }
  function ProductKey(p: Product): int { p.productId }
  function CategoryKey(c: Category): int { c.categoryId }

  /** A customer's company name. It is not a key of the table: only the
      insert checks it (see `Customers.HasCompanyName`). */
  function CompanyName(c: Customer): string { c.companyName }

  /** The product fields a row carries. */
  function ProductOf(row: ProductRow): Product {
    Product(row.productId, row.productName, row.supplierId, row.categoryId,
            row.quantityPerUnit, row.unitPrice, row.unitsInStock,
            row.unitsOnOrder, row.reorderLevel, row.discontinued)
  }

  /** The join's result selector: the row carries the product unchanged and
      the name of the category it was joined with. */
  function RowOf(p: Product, c: Category): (row: ProductRow)
    ensures ProductOf(row) == p
    ensures row.categoryName == c.categoryName
  {
    ProductRow(p.productId, p.productName, p.supplierId, p.categoryId,
               c.categoryName, p.quantityPerUnit, p.unitPrice, p.unitsInStock,
               p.unitsOnOrder, p.reorderLevel, p.discontinued)
  }
}
