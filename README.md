# NWRestfulAPI customers and products resources in Dafny

This project models the two resource controllers of NWRestfulAPI, a REST
service over the Northwind sample database. Each controller holds a database
context and answers HTTP actions by reading or updating its tables:

- **Customers** (`api/customers`): list all customers, list the orders of one
  customer, search customers by company-name substring, add a customer
  (rejected when the company name is taken), edit a customer (full-record
  replace) and delete a customer (its orders go with it by cascade).
- **Products** (`api/products`, `/catname/{catname}`): list the inner join of
  products and categories, get one product, list the joined rows whose
  category name starts with a prefix, replace a product, add a product and
  delete a product.

The database context is `Store.NorthwindContext`, a class whose four fields
are the Customers, Orders, Products and Categories tables. A table is a
sequence of rows in table order with a unique primary key, and its operations
live in `Tables`. `Find` is the key lookup. `Where` is a filter followed by
`ToList`. `Replace` overwrites every field of the row with the same key.
`Remove` deletes by key. Appending a row is an insert. Each
`Add`/`Remove`/`SetValues` followed by `SaveChanges` is one atomic table
update. A save that fails leaves every table as it was. Lemmas prove that,
on tables with unique keys, these operations behave like map updates.

The read-only actions are functions over the tables
(`Customers.GetCustomers`, `Products.GetProductsByName`, ...). The actions
that change the database are methods of `Customers.CustomersController` and
`Products.ProductsController`. Each such method modifies the context it
holds and keeps its invariant `Valid()`: keys are unique and every order
points at a stored customer. Each action answers with a `Http.Response`,
which is a status code (200, 201, 204, 400, 404, or 500 for an exception the
action does not catch) and a body. Every status code is reproduced as the
action writes it, including the different not-found answers of sibling
actions. For customers, the orders query, the search and the delete answer
204, while the edit answers 404. `Scenarios` replays the integration tests
on the seeded store. It derives their outcomes from the actions' contracts
and the table lemmas (`Tables.SubsequenceLength` bounds the orders query).

Where the code and the service's documented intent differ, the model follows
the code:

- Company names are kept distinct only by `AddCustomer`. `EditCustomer`
  checks no name, so a full replace can give a customer another customer's
  company name (`Customers.EditMayDuplicateCompanyName`).
- The search and prefix tests use ordinal `Contains`/`StartsWith`. Whether
  the database compares case-sensitively depends on its collation, which is
  not modelled.
- `GetProductsByName` tests its list for null instead of for emptiness. It
  therefore answers 200 with an empty list where `GetProducts` answers 204,
  and its 204 branch can never be taken.

## Model

| member | source | states |
|---|---|---|
| `Tables.Find` | NWRestfulAPI/Controllers/CustomersController.cs:36 | the lookup finds a row exactly when some row has the key, and what it finds is a stored row with that key |
| `Tables.Where` | NWRestfulAPI/Controllers/CustomersController.cs:95 | the filtered list holds exactly the rows satisfying the predicate, no more rows than the table, in table order (a subsequence) |
| `Tables.Replace` | NWRestfulAPI/Controllers/CustomersController.cs:61-63 | a replace keeps the table's length and every row's key; the row whose key is the new record's key becomes that record, and every other row is unchanged |
| `Tables.Remove` | NWRestfulAPI/Controllers/CustomersController.cs:122-123 | after a delete no row has the key, every row with another key is kept, and the order of the rest is unchanged |
| `Tables.FindUnique` | NWRestfulAPI.Tests/CustomersControllerTests.cs:248 | on a table with unique keys, looking up any row's key finds that row |
| `Tables.FindReplace` | NWRestfulAPI/Controllers/CustomersController.cs:61-63 | after a replace, the replaced key finds exactly the new record (if the key was stored) and every other key finds what it found before |
| `Tables.RemoveAbsent` | NWRestfulAPI/Controllers/CustomersController.cs:116-120 | deleting a key no row has leaves the table as it is |
| `Tables.FindRemove` | NWRestfulAPI/Controllers/CustomersController.cs:122-123 | after a delete, the removed key finds nothing and every other key finds what it found before |
| `Tables.RemoveSize` | NWRestfulAPI/Controllers/CustomersController.cs:122-123 | deleting a stored key from a table with unique keys removes exactly one row |
| `Tables.SubsequenceMembers` | NWRestfulAPI/Controllers/CustomersController.cs:95 | every row of a filtered list is a row of the table |
| `Tables.SubsequenceLength` | NWRestfulAPI/Controllers/CustomersController.cs:43 | a filtered list, such as a customer's orders, has no more rows than its table |
| `Tables.SubsequenceKeepsUnique` | NWRestfulAPI.Tests/CustomersControllerTests.cs:248 | a table with some rows left out still has unique keys |
| `Tables.AppendKeepsUnique` | NWRestfulAPI/Controllers/CustomersController.cs:79-80 | inserting a row under a new key keeps the keys unique |
| `Tables.FindAppend` | NWRestfulAPI/Controllers/CustomersController.cs:79-80 | after inserting under a new key, that key finds the new row and every other key finds what it found before |
| `Text.ContainsAt` | NWRestfulAPI/Controllers/CustomersController.cs:95 | `Contains` holds exactly when the search string starts at some index of the company name |
| `Entities.RowOf` | NWRestfulAPI/Controllers/ProductsController.cs:30-43 | the join's row carries the product's fields unchanged (projecting them back gives the product) and the category's name |
| `Store.NorthwindContext.constructor` | NWRestfulAPI.Tests/CustomersControllerTests.cs:245-277 | a context opened on tables that meet the key and foreign-key constraints is valid and holds exactly those tables |
| `Customers.OrdersOf` | NWRestfulAPI/Controllers/CustomersController.cs:43 | a customer's orders are exactly the orders whose foreign key is its id, in table order |
| `Customers.CascadeDelete` | NWRestfulAPI.Tests/CustomersControllerTests.cs:273-276 | the cascade keeps exactly the orders whose foreign key is not the deleted id, in table order |
| `Customers.SameCompany` | NWRestfulAPI/Controllers/CustomersController.cs:74-75 | the duplicate-name query is non-empty exactly when some stored customer has the company name |
| `Customers.OrdersPartition` | NWRestfulAPI.Tests/CustomersControllerTests.cs:273-276 | a customer's orders and the orders its deletion keeps together make up the Orders table, row for row |
| `Customers.GetAllCustomers` | NWRestfulAPI/Controllers/CustomersController.cs:21-28 | always 200 with exactly the stored customers, in table order |
| `Customers.GetCustomers` | NWRestfulAPI/Controllers/CustomersController.cs:34-45 | 204 with no body exactly when no customer has the id; otherwise 200 with exactly that customer's orders, in table order |
| `Customers.GetCustomersByName` | NWRestfulAPI/Controllers/CustomersController.cs:93-108 | 204 with no body exactly when no company name contains the search string; otherwise 200 with exactly the customers whose name contains it, in table order |
| `Customers.AddKeepsCompanyNamesDistinct` | NWRestfulAPI/Controllers/CustomersController.cs:74-80 | inserting a customer whose company name no stored customer has keeps company names pairwise distinct |
| `Customers.EditMayDuplicateCompanyName` | NWRestfulAPI/Controllers/CustomersController.cs:54-63 | on two customers with distinct names, a full replace can give one the other's company name: the edit does not keep names distinct |
| `Customers.DeleteKeepsReferences` | NWRestfulAPI.Tests/CustomersControllerTests.cs:273-276 | deleting a customer together with its orders leaves every remaining order pointing at a stored customer |
| `Customers.EditKeepsReferences` | NWRestfulAPI/Controllers/CustomersController.cs:61-63 | a replace keeps every key, so every order still points at a stored customer |
| `Customers.AddKeepsReferences` | NWRestfulAPI/Controllers/CustomersController.cs:79-80 | an insert keeps every stored customer, so every order still points at one |
| `Customers.CustomersController.constructor` | NWRestfulAPI/Controllers/CustomersController.cs:16 | the controller works on the context it is given |
| `Customers.CustomersController.EditCustomer` | NWRestfulAPI/Controllers/CustomersController.cs:51-65 | unknown id: 404 and no table changes, whatever the body; known id: 200, the stored record becomes exactly the body (omitted optional fields are cleared), other customers and every other table are unchanged |
| `Customers.CustomersController.AddCustomer` | NWRestfulAPI/Controllers/CustomersController.cs:70-87 | a taken company name (whatever the id) or a taken key: 400 and no change; otherwise 200, the body is appended and found under its key; company-name distinctness is preserved |
| `Customers.CustomersController.DeleteCustomer` | NWRestfulAPI/Controllers/CustomersController.cs:112-130 | unknown id: 204 and no change; known id: 200, the customer is removed (one row fewer), so are exactly its orders, and everything else is unchanged |
| `Products.CategoryOf` | NWRestfulAPI/Controllers/ProductsController.cs:27-29 | a product matches the stored category whose key equals its category id; a null or dangling category id matches none |
| `Products.Join` | NWRestfulAPI/Controllers/ProductsController.cs:26-44 | one row per product whose category id matches a stored category, in product order: the i-th row is the i-th such product with its category's name, and there are exactly as many rows as such products |
| `Products.JoinMembers` | NWRestfulAPI/Controllers/ProductsController.cs:26-44 | every row comes from a stored product that has a category and carries that category's name; every product with a category gives its row (inner join) |
| `Products.GetProducts` | NWRestfulAPI/Controllers/ProductsController.cs:22-52 | 204 with no body exactly when no product has a category; otherwise 200 with the non-empty join |
| `Products.GetProduct` | NWRestfulAPI/Controllers/ProductsController.cs:65-75 | 404 exactly when no product has the id; otherwise 200 with the stored product of that id |
| `Products.FilterThenJoin` | NWRestfulAPI/Controllers/ProductsController.cs:82-100 | filtering products by category-name prefix and then joining gives the same rows, in the same order, as joining and then keeping the rows whose category name has the prefix |
| `Products.GetProductsByName` | NWRestfulAPI/Controllers/ProductsController.cs:80-112 | always 200, also for an empty result; the rows are exactly the joined rows whose category name starts with the prefix |
| `Products.ProductExists` | NWRestfulAPI/Controllers/ProductsController.cs:177-180 | the existence test agrees with the key lookup |
| `Products.ProductsController.constructor` | NWRestfulAPI/Controllers/ProductsController.cs:16 | the controller works on the context it is given |
| `Products.ProductsController.PutProduct` | NWRestfulAPI/Controllers/ProductsController.cs:122-148 | path id differs from the body's: 400 and no change; no such product: 404 and no change; otherwise 204, the product is replaced wholesale by the body and the others are unchanged |
| `Products.ProductsController.PostProduct` | NWRestfulAPI/Controllers/ProductsController.cs:153-159 | a new key: 201 with the body, which is appended and found under its key; a taken key: the save throws, 500, no change |
| `Products.ProductsController.DeleteProduct` | NWRestfulAPI/Controllers/ProductsController.cs:163-175 | unknown id: 404 and no change; otherwise 204 and exactly that product is removed (one row fewer), the others unchanged |
| `Scenarios.Seeded` | NWRestfulAPI.Tests/CustomersControllerTests.cs:199-214 | the seeded store: ALFKI and ANATR, one order of ALFKI, valid |
| `Scenarios.GetAllCustomersReturnsSeededCustomers` | NWRestfulAPI.Tests/CustomersControllerTests.cs:25-37 | listing the seeded store answers 200 with two customers |
| `Scenarios.GetCustomerOrdersReturnsOrdersForExistingCustomer` | NWRestfulAPI.Tests/CustomersControllerTests.cs:40-53 | ALFKI's orders: 200 with a single order of ALFKI |
| `Scenarios.GetCustomerOrdersReturnsNoContentWhenMissing` | NWRestfulAPI.Tests/CustomersControllerTests.cs:56-65 | an unknown customer's orders: 204 with no body |
| `Scenarios.AddCustomerCreatesNewCustomer` | NWRestfulAPI.Tests/CustomersControllerTests.cs:68-84 | adding NEW01 answers 200 and the list then has three customers including NEW01 |
| `Scenarios.AddCustomerReturnsBadRequestForDuplicateCompany` | NWRestfulAPI.Tests/CustomersControllerTests.cs:87-98 | adding DUP01 with a taken company name answers 400 and the list is unchanged |
| `Scenarios.EditCustomerUpdatesExistingCustomer` | NWRestfulAPI.Tests/CustomersControllerTests.cs:101-116 | editing ALFKI answers 200 and the list then holds exactly the body as ALFKI's record |
| `Scenarios.DeleteCustomerRemovesCustomer` | NWRestfulAPI.Tests/CustomersControllerTests.cs:119-132 | deleting ANATR answers 200 and no listed customer is ANATR |
| `Scenarios.DeleteCustomerCascadesToOrders` | NWRestfulAPI.Tests/CustomersControllerTests.cs:273-276 | deleting ALFKI answers 200 and leaves no orders |
| `Scenarios.DeleteMissingCustomerTwice` | NWRestfulAPI/Controllers/CustomersController.cs:116-120 | deleting a missing customer twice answers 204 with no body both times |

## Left out

- Authentication is not modelled. This covers the login endpoint (`AuthenticationController`, whose credential check lives in a service that is not part of this model), JWT issuance and signature validation, and the `[Authorize]` gate that the framework applies before any customers action runs.
- Program.cs (dependency injection, Swagger, CORS), `HelloController` and the `User` record are framework wiring or carry no logic.
- The text of messages (`Message` stands for any text), `Console.WriteLine`, JSON serialisation, HTTP routing and async/await are not modelled. The awaits run one after another, so each action is one sequential step.
- Entity Framework change tracking, lazy loading of `customer.Orders` and the optimistic-concurrency rethrow in `PutProduct` are not modelled. The rethrow needs a second writer to re-insert the row between the failed update and the existence check.
- Database collation is not modelled: key lookup, name equality, `Contains` and `StartsWith` are ordinal.
- The five-character limit on `CustomerId` is not enforced, as the test database does not enforce it either.
- The only save failure modelled is a duplicate primary key. Lost connections and similar faults are not modelled, so the 400 answers of the `catch` blocks in `DeleteCustomer` and `GetProducts` are never produced here.
- Foreign keys from products to categories and suppliers, and from order details to orders and products, are not checked. Suppliers and order details are not part of this model. A dangling category id in `PutProduct`/`PostProduct`, or deleting a product that has order details, would make the real save throw.
- Products.ProductsController.PostProduct: stores the posted `ProductId` as given. Whether the database generates product keys (an identity column) is decided by schema configuration that is not part of this model.
- Customers.CustomersController.EditCustomer: for an id that is stored, requires the body's `CustomerId` to equal the path id. With another id in the body, `SetValues` would try to change a key, which Entity Framework rejects with an exception the action does not catch.
- Navigation collections in a posted body (a customer's `Orders`) are not inserted with it.
- Orders carry only `OrderId`, `CustomerId` and `ShipName`; the other scalar columns of Order are never read or written by the controllers and are left out. Categories carry only their key and name. Product stock counters (16-bit in the database) are unbounded integers, and the decimal unit price is a `real`. All of these are only copied, never computed with.
- Rows come back in the order the model keeps them, which is insertion order. A query without `ORDER BY` fixes no order in the database.
