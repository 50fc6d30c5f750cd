/** Facts exchanged between the services over the broker, as the listeners see
    them and as the inventory service announces them. */
module Messages {
  import opened Values

  const ProductsEvent := "products_event"
  const InventoryEvent := "inventory_event"

  const ProductCreated := "product.created"
  const ProductDeleted := "product.deleted"
  const StockCreated := "stock.created"
  const StockDeleted := "stock.deleted"
  const StockReplenish := "stock.replenish"
  const StockOutOfStock := "stock.out_of_stock"

  /** The JSON body of a fact, destructured the way the listeners do. */
  datatype Payload = Payload(productId: Value, quantity: Value, sellerId: Value)

  /** A delivery handed to a listener: the routing key it was published with and
      its content, `None` when the content is not valid JSON. */
  datatype Message = Message(routingKey: string, content: Option<Payload>)

  /** A fact announced by the inventory service: the body `{ productId, quantity }`
      published under a routing key on an exchange. */
  datatype Fact = Fact(exchange: string, routingKey: string, productId: int, quantity: int)

  /** The message a consumer receives for an announced fact. */
  function Delivered(f: Fact): (m: Message)
    ensures m.routingKey == f.routingKey && m.content.Some?
    ensures AsInt(m.content.value.productId) == Some(f.productId)
    ensures AsInt(m.content.value.quantity) == Some(f.quantity)
    ensures m.content.value.sellerId == Missing
  {
    Message(f.routingKey, Some(Payload(FromInt(f.productId), FromInt(f.quantity), Missing)))
  }

  /** Why a listener gave up on a delivery after catching the error. */
  datatype Cause =
    | NotJson           // JSON.parse threw
    | StoreRejected     // the database client rejected the query or found no row
    | ValidationFailed  // the stored row failed the inventory item schema
    | PublishFailed     // the follow-up fact could not be published

  /** How a listener finished. No listener lets an error escape: each one ends in
      one of these three ways and returns normally. */
  datatype Handled = Ignored | Applied | Swallowed(cause: Cause)
}
