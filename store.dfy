/** The database context both controllers hold: four keyed tables. */
module Store {
  import opened Tables
  import opened Entities

  /** Every order belongs to a stored customer (the Orders-to-Customers
      foreign key). */
  ghost predicate OrdersReferenceCustomers(orders: seq<Order>, customers: seq<Customer>) {
    forall o :: o in orders ==> HasKey(customers, CustomerKey, o.customerId)
  }

  class NorthwindContext {
    var customers: seq<Customer>
    var orders: seq<Order>
    var products: seq<Product>
    var categories: seq<Category>

    /** The constraints the database keeps: primary keys and the foreign key
        from orders to customers. */
    ghost predicate Valid()
      reads this
    {
      && UniqueKeys(customers, CustomerKey)
      && UniqueKeys(orders, OrderKey)
      && UniqueKeys(products, ProductKey)
      && UniqueKeys(categories, CategoryKey)
      && OrdersReferenceCustomers(orders, customers)
    }

    /** Opens the context on a database holding the given tables. */
    constructor (customers: seq<Customer>, orders: seq<Order>,
                 products: seq<Product>, categories: seq<Category>)
      requires UniqueKeys(customers, CustomerKey) && UniqueKeys(orders, OrderKey)
      requires UniqueKeys(products, ProductKey) && UniqueKeys(categories, CategoryKey)
      requires OrdersReferenceCustomers(orders, customers)
      ensures Valid()
      ensures this.customers == customers && this.orders == orders
      ensures this.products == products && this.categories == categories
    {
      this.customers := customers;
      this.orders := orders;
      this.products := products;
      this.categories := categories;
    }
  }
}
