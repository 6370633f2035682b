/** The customers resource: three read-only queries over the tables and a
    controller whose actions edit, add and delete customers in the context. */
module Customers {
  import opened Tables
  import opened Text
  import opened Entities
  import opened Http
  import opened Store

  /** Some stored customer has company name `name`. */
  predicate HasCompanyName(customers: seq<Customer>, name: string) {
    HasKey(customers, CompanyName, name)
  }

  /** No two stored customers share a company name. The schema does not
      enforce this; it is what the insert's name check aims at. */
  ghost predicate DistinctCompanyNames(customers: seq<Customer>) {
    UniqueKeys(customers, CompanyName)
  }

  /** `customer.Orders`: the orders whose foreign key is `id`, in table order. */
  function OrdersOf(orders: seq<Order>, id: string): (r: seq<Order>)
    ensures forall o :: o in r <==> o in orders && o.customerId == id
    ensures SubsequenceOf(r, orders)
  {
    Where(orders, (o: Order) => o.customerId == id)
  }

  /** The orders the database keeps when customer `id` is deleted: the
      cascade removes every order whose foreign key is `id`. */
  function CascadeDelete(orders: seq<Order>, id: string): (r: seq<Order>)
    ensures forall o :: o in r <==> o in orders && o.customerId != id
    ensures SubsequenceOf(r, orders)
  {
    Where(orders, (o: Order) => o.customerId != id)
  }

  /** `db.Customers.Where(c => c.CompanyName == name)`. */
  function SameCompany(customers: seq<Customer>, name: string): (r: seq<Customer>)
    ensures |r| > 0 <==> HasCompanyName(customers, name)
  {
    var r := Where(customers, (c: Customer) => c.companyName == name);
    assert HasCompanyName(customers, name) ==> |r| > 0 by {
      if HasCompanyName(customers, name) {
        var i :| 0 <= i < |customers| && CompanyName(customers[i]) == name;
        assert customers[i] in r;
      }
    }
    assert |r| > 0 ==> HasCompanyName(customers, name) by {
      if |r| > 0 {
        assert r[0] in customers;
        var i :| 0 <= i < |customers| && customers[i] == r[0];
        assert CompanyName(customers[i]) == name;
      }
    }
    r
  }

  /** The orders of a customer and the orders its deletion keeps split the
      Orders table between them, row for row. */
  lemma {:induction false} OrdersPartition(orders: seq<Order>, id: string)
    ensures multiset(OrdersOf(orders, id)) + multiset(CascadeDelete(orders, id)) == multiset(orders)
  {
    if |orders| > 0 {
      OrdersPartition(orders[1..], id);
      assert orders == [orders[0]] + orders[1..];
    }
  }

  /** GET api/customers: 200 with the whole Customers table. */
  function GetAllCustomers(customers: seq<Customer>): (r: Response)
    ensures r.status == OK && r.body == CustomerList(customers)
  {
    Response(OK, CustomerList(customers))
  }

  /** GET api/customers/{id}: the orders of customer `id`; an unknown id
      answers 204 with no body. */
  function GetCustomers(customers: seq<Customer>, orders: seq<Order>, id: string): (r: Response)
    ensures r.status == NoContent <==> !HasKey(customers, CustomerKey, id)
    ensures r.status == NoContent ==> r.body == NoBody
    ensures r.status != NoContent ==>
      && r.status == OK
      && r.body.OrderList?
      && (forall o :: o in r.body.orders <==> o in orders && o.customerId == id)
      && SubsequenceOf(r.body.orders, orders)
  {
    match Find(customers, CustomerKey, id)
    case None => Response(NoContent, NoBody)
    case Some(customer) => Response(OK, OrderList(OrdersOf(orders, customer.customerId)))
  }

  /** GET api/customers/company/{search}: the customers whose company name
      contains `search`, in table order; none answers 204 with no body. */
  function GetCustomersByName(customers: seq<Customer>, search: string): (r: Response)
    ensures r.status == NoContent <==> forall c :: c in customers ==> !Contains(c.companyName, search)
    ensures r.status == NoContent ==> r.body == NoBody
    ensures r.status != NoContent ==>
      && r.status == OK
      && r.body.CustomerList?
      && (forall c :: c in r.body.customers <==> c in customers && Contains(c.companyName, search))
      && SubsequenceOf(r.body.customers, customers)
  {
    var found := Where(customers, (c: Customer) => Contains(c.companyName, search));
    assert forall c :: c in found <==> c in customers && Contains(c.companyName, search) by {
      forall c | c in customers && Contains(c.companyName, search) ensures c in found {
        var i :| 0 <= i < |customers| && customers[i] == c;
      }
      forall c | c in found ensures c in customers && Contains(c.companyName, search) {
        var i :| 0 <= i < |found| && found[i] == c;
      }
    }
    if |found| == 0 then Response(NoContent, NoBody)
    else
      assert found[0] in found;
      Response(OK, CustomerList(found))
  }

  /** Adding a customer whose company name is new keeps company names
      pairwise distinct. */
  lemma AddKeepsCompanyNamesDistinct(customers: seq<Customer>, c: Customer)
    requires DistinctCompanyNames(customers)
    requires |SameCompany(customers, c.companyName)| == 0
    ensures DistinctCompanyNames(customers + [c])
  {
  }

  /** Editing checks no company name: a full replace can give a customer the
      company name another customer already has. */
  lemma EditMayDuplicateCompanyName()
    ensures
      var alfki := Customer("ALFKI", "Alfreds Futterkiste", None, None, None, None, None, None, None, None, None);
      var anatr := Customer("ANATR", "Ana Trujillo", None, None, None, None, None, None, None, None, None);
      var edited := anatr.(companyName := alfki.companyName);
      && DistinctCompanyNames([alfki, anatr])
      && !DistinctCompanyNames(Replace([alfki, anatr], CustomerKey, edited))
  {
  }

  /** Deleting a customer together with its orders keeps every remaining
      order pointing at a stored customer. */
  lemma DeleteKeepsReferences(customers: seq<Customer>, orders: seq<Order>, id: string)
    requires OrdersReferenceCustomers(orders, customers)
    ensures OrdersReferenceCustomers(CascadeDelete(orders, id), Remove(customers, CustomerKey, id))
  {
  }

  /** A replace keeps every key, so every order keeps its customer. */
  lemma EditKeepsReferences(customers: seq<Customer>, orders: seq<Order>, c: Customer)
    requires OrdersReferenceCustomers(orders, customers)
    ensures OrdersReferenceCustomers(orders, Replace(customers, CustomerKey, c))
  {
  }

  /** An insert keeps every key, so every order keeps its customer. */
  lemma AddKeepsReferences(customers: seq<Customer>, orders: seq<Order>, c: Customer)
    requires OrdersReferenceCustomers(orders, customers)
    ensures OrdersReferenceCustomers(orders, customers + [c])
  {
    forall o | o in orders ensures HasKey(customers + [c], CustomerKey, o.customerId) {
      var i :| 0 <= i < |customers| && CustomerKey(customers[i]) == o.customerId;
      assert (customers + [c])[i] == customers[i];
    }
  }

  class CustomersController {
    const db: NorthwindContext

    constructor (db: NorthwindContext)
      ensures this.db == db
    {
      this.db := db;
    }

    /** PUT api/customers/{id}: overwrites every field of customer `id` with
        the body; an unknown id answers 404 and changes nothing, whatever
        the body. For a known id the body must carry that id: `SetValues`
        cannot change a key. */
    method EditCustomer(id: string, cust: Customer) returns (r: Response)
      requires db.Valid()
      requires HasKey(db.customers, CustomerKey, id) ==> cust.customerId == id
      modifies db
      ensures db.Valid()
      ensures db.orders == old(db.orders) && db.products == old(db.products)
      ensures db.categories == old(db.categories)
      ensures r.status == NotFound <==> !old(HasKey(db.customers, CustomerKey, id))
      ensures r.status == NotFound ==> r.body == Message && unchanged(db)
      ensures r.status != NotFound ==>
        && r == Response(OK, Message)
        && db.customers == Replace(old(db.customers), CustomerKey, cust)
        && Find(db.customers, CustomerKey, id) == Some(cust)
      ensures |db.customers| == old(|db.customers|)
      ensures forall k :: k != id ==> Find(db.customers, CustomerKey, k) == old(Find(db.customers, CustomerKey, k))
    {
      var custToEdit := Find(db.customers, CustomerKey, id);
      if custToEdit.None? {
        return Response(NotFound, Message);
      }
      // SetValues(cust) followed by SaveChanges: a whole-record replace.
      ghost var before := db.customers;
      var edited := Replace(db.customers, CustomerKey, cust);
      EditKeepsReferences(before, db.orders, cust);
      FindReplace(before, CustomerKey, cust, id);
      forall k | k != id
        ensures Find(edited, CustomerKey, k) == Find(before, CustomerKey, k)
      {
        FindReplace(before, CustomerKey, cust, k);
      }
      assert UniqueKeys(edited, CustomerKey);
      db.customers := edited;
      r := Response(OK, Message);
    }

    /** POST api/customers: inserts the body unless a stored customer has the
        same company name (400) or the insert fails on the key (400). */
    method AddCustomer(cust: Customer) returns (r: Response)
      requires db.Valid()
      modifies db
      ensures db.Valid()
      ensures db.orders == old(db.orders) && db.products == old(db.products)
      ensures db.categories == old(db.categories)
      ensures old(HasCompanyName(db.customers, cust.companyName)) ==>
        r == Response(BadRequest, Message) && unchanged(db)
      ensures r.status == OK <==>
        old(!HasCompanyName(db.customers, cust.companyName)
            && !HasKey(db.customers, CustomerKey, cust.customerId))
      ensures r.status != OK ==> r == Response(BadRequest, Message) && unchanged(db)
      ensures r.status == OK ==>
        && r.body == Message
        && db.customers == old(db.customers) + [cust]
        && Find(db.customers, CustomerKey, cust.customerId) == Some(cust)
      ensures old(DistinctCompanyNames(db.customers)) ==> DistinctCompanyNames(db.customers)
    {
      if |SameCompany(db.customers, cust.companyName)| > 0 {
        return Response(BadRequest, Message);
      }
      // SaveChanges throws on a duplicate primary key; the catch answers 400.
      if HasKey(db.customers, CustomerKey, cust.customerId) {
        return Response(BadRequest, Message);
      }
      ghost var before := db.customers;
      if DistinctCompanyNames(before) {
        AddKeepsCompanyNamesDistinct(before, cust);
      }
      db.customers := db.customers + [cust];
      AppendKeepsUnique(before, CustomerKey, cust);
      AddKeepsReferences(before, db.orders, cust);
      FindAppend(before, CustomerKey, cust, cust.customerId);
      r := Response(OK, Message);
    }

    /** DELETE api/customers/{id}: removes customer `id` and, by cascade, its
        orders; an unknown id answers 204 and changes nothing. */
    method DeleteCustomer(id: string) returns (r: Response)
      requires db.Valid()
      modifies db
      ensures db.Valid()
      ensures db.products == old(db.products) && db.categories == old(db.categories)
      ensures r.status == NoContent <==> !old(HasKey(db.customers, CustomerKey, id))
      ensures r.status == NoContent ==> r.body == NoBody && unchanged(db)
      ensures r.status != NoContent ==>
        && r == Response(OK, Message)
        && db.customers == Remove(old(db.customers), CustomerKey, id)
        && db.orders == CascadeDelete(old(db.orders), id)
        && |db.customers| == old(|db.customers|) - 1
      ensures !HasKey(db.customers, CustomerKey, id)
      ensures forall o :: o in db.orders ==> o.customerId != id
      ensures forall k :: k != id ==> Find(db.customers, CustomerKey, k) == old(Find(db.customers, CustomerKey, k))
    {
      var customer := Find(db.customers, CustomerKey, id);
      if customer.None? {
        return Response(NoContent, NoBody);
      }
      // Remove followed by SaveChanges; the cascade deletes the orders.
      ghost var before := db.customers;
      ghost var beforeOrders := db.orders;
      RemoveSize(before, CustomerKey, id);
      DeleteKeepsReferences(before, beforeOrders, id);
      SubsequenceKeepsUnique(Remove(before, CustomerKey, id), before, CustomerKey);
      SubsequenceKeepsUnique(CascadeDelete(beforeOrders, id), beforeOrders, OrderKey);
      db.customers := Remove(db.customers, CustomerKey, id);
      db.orders := CascadeDelete(db.orders, id);
      forall k | k != id
        ensures Find(db.customers, CustomerKey, k) == Find(before, CustomerKey, k)
      {
        FindRemove(before, CustomerKey, id, k);
      }
      r := Response(OK, Message);
    }
  }
}
