/** The action results the controllers return: a status code and a body. */
module Http {
  import opened Entities

  const OK := 200
  const Created := 201
  const NoContent := 204
  const BadRequest := 400
  const NotFound := 404
  /** What the framework answers when an action throws. */
  const InternalServerError := 500

  /** `Message` stands for a human-readable text, whose wording is not modelled. */
  datatype Body =
    | NoBody
    | Message
    | CustomerList(customers: seq<Customer>)
    | OrderList(orders: seq<Order>)
    | ProductRows(rows: seq<ProductRow>)
    | ProductBody(product: Product)

  datatype Response = Response(status: int, body: Body)
}
