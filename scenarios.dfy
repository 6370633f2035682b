/** The outcomes the integration tests check, derived from the actions'
    contracts and the table lemmas on the store the tests seed: customers ALFKI and ANATR,
    and one order of ALFKI. */
module Scenarios {
  import opened Tables
  import opened Entities
  import opened Http
  import opened Store
  import opened Customers

  function NewCustomer(id: string, companyName: string): Customer {
    Customer(id, companyName, None, None, None, None, None, None, None, None, None)
  }

  const Alfreds := NewCustomer("ALFKI", "Alfreds Futterkiste")
  const Ana := NewCustomer("ANATR", "Ana Trujillo Emparedados y helados")
  const TestOrder := Order(1, "ALFKI", Some("Test order"))

  /** The seeded database. */
  method Seeded() returns (db: NorthwindContext)
    ensures fresh(db) && db.Valid()
    ensures db.customers == [Alfreds, Ana] && db.orders == [TestOrder]
    ensures db.products == [] && db.categories == []
  {
    assert CustomerKey([Alfreds, Ana][0]) == "ALFKI";
    db := new NorthwindContext([Alfreds, Ana], [TestOrder], [], []);
  }

  method GetAllCustomersReturnsSeededCustomers() returns (r: Response)
    ensures r.status == OK && r.body.CustomerList? && |r.body.customers| == 2
  {
    var db := Seeded();
    r := GetAllCustomers(db.customers);
  }

  method GetCustomerOrdersReturnsOrdersForExistingCustomer() returns (r: Response)
    ensures r.status == OK && r.body.OrderList?
    ensures |r.body.orders| == 1 && r.body.orders[0].customerId == "ALFKI"
  {
    var db := Seeded();
    assert CustomerKey(db.customers[0]) == "ALFKI";
    r := GetCustomers(db.customers, db.orders, "ALFKI");
    assert TestOrder in r.body.orders;
    SubsequenceLength(r.body.orders, db.orders);
  }

  method GetCustomerOrdersReturnsNoContentWhenMissing() returns (r: Response)
    ensures r == Response(NoContent, NoBody)
  {
    var db := Seeded();
    r := GetCustomers(db.customers, db.orders, "MISSING");
  }

  method AddCustomerCreatesNewCustomer() returns (r: Response, all: Response)
    ensures r.status == OK
    ensures all.body.CustomerList? && |all.body.customers| == 3
    ensures NewCustomer("NEW01", "New Company") in all.body.customers
  {
    var db := Seeded();
    var controller := new CustomersController(db);
    r := controller.AddCustomer(NewCustomer("NEW01", "New Company"));
    all := GetAllCustomers(db.customers);
  }

  method AddCustomerReturnsBadRequestForDuplicateCompany() returns (r: Response, all: Response)
    ensures r.status == BadRequest
    ensures all.body == CustomerList([Alfreds, Ana])
  {
    var db := Seeded();
    var controller := new CustomersController(db);
    assert CompanyName(db.customers[0]) == "Alfreds Futterkiste";
    r := controller.AddCustomer(NewCustomer("DUP01", "Alfreds Futterkiste"));
    all := GetAllCustomers(db.customers);
  }

  method EditCustomerUpdatesExistingCustomer() returns (r: Response, all: Response)
    ensures r.status == OK
    ensures all.body.CustomerList? && NewCustomer("ALFKI", "Updated Name") in all.body.customers
  {
    var db := Seeded();
    var controller := new CustomersController(db);
    assert CustomerKey(db.customers[0]) == "ALFKI";
    r := controller.EditCustomer("ALFKI", NewCustomer("ALFKI", "Updated Name"));
    all := GetAllCustomers(db.customers);
  }

  method DeleteCustomerRemovesCustomer() returns (r: Response, all: Response)
    ensures r.status == OK
    ensures all.body.CustomerList? && forall c :: c in all.body.customers ==> c.customerId != "ANATR"
  {
    var db := Seeded();
    var controller := new CustomersController(db);
    assert CustomerKey(db.customers[1]) == "ANATR";
    r := controller.DeleteCustomer("ANATR");
    all := GetAllCustomers(db.customers);
    assert forall c :: c in all.body.customers ==> CustomerKey(c) != "ANATR";
  }

  /** Deleting a customer that has orders deletes its orders too. */
  method DeleteCustomerCascadesToOrders() returns (r: Response, orders: seq<Order>)
    ensures r.status == OK && orders == []
  {
    var db := Seeded();
    var controller := new CustomersController(db);
    assert CustomerKey(db.customers[0]) == "ALFKI";
    r := controller.DeleteCustomer("ALFKI");
    orders := db.orders;
  }

  /** Deleting a missing customer twice answers 204 both times. */
  method DeleteMissingCustomerTwice() returns (first: Response, second: Response)
    ensures first == Response(NoContent, NoBody) && second == first
  {
    var db := Seeded();
    var controller := new CustomersController(db);
    first := controller.DeleteCustomer("MISSING");
    second := controller.DeleteCustomer("MISSING");
  }
}
