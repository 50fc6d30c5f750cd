/** The product service's consumers of stock facts. Three of them project a fact
    onto the product's `status` (`stock.created` and `stock.replenish` make it
    AVAILABLE, `stock.out_of_stock` makes it OUT_OF_STOCK); the fourth deletes the
    product on `stock.deleted`. Each catches every error: an unknown product, a
    payload the database client rejects or a body that is not JSON leaves the
    table as it was. */
module ProductListeners {
  import opened Values
  import opened Messages
  import opened Catalog

  /** The product id a status fact under `key` names, when the delivery gets as
      far as the update and the database client accepts the id as an integer. */
  function StatusTarget(delivery: Option<Message>, key: string): (r: Option<int>)
    ensures r.Some? <==>
      delivery.Some? && delivery.value.routingKey == key && delivery.value.content.Some?
      && AsInt(delivery.value.content.value.productId).Some?
    ensures r.Some? ==> AsInt(delivery.value.content.value.productId) == r
  {
    if delivery.None? || delivery.value.routingKey != key || delivery.value.content.None? then None
    else AsInt(delivery.value.content.value.productId)
  }

  /** The products after a status fact under `key` that sets `status`: the named
      product, when it exists, has the new status and nothing else changes. */
  function AfterStatusFact(products: map<int, Product>, delivery: Option<Message>, key: string, status: Status)
    : (r: map<int, Product>)
    ensures r.Keys == products.Keys
    ensures StatusTarget(delivery, key).Some? && StatusTarget(delivery, key).value in products ==>
      var id := StatusTarget(delivery, key).value;
      r[id] == products[id].(status := status)
    ensures forall id :: id in products && Some(id) != StatusTarget(delivery, key) ==> r[id] == products[id]
  {
    match StatusTarget(delivery, key)
    case Some(id) =>
      if id in products then products[id := products[id].(status := status)] else products
    case None => products
  }

  /** Redelivering a status fact gives the state the first delivery gave. */
  lemma StatusFactIdempotent(products: map<int, Product>, delivery: Option<Message>, key: string, status: Status)
    ensures var once := AfterStatusFact(products, delivery, key, status);
            AfterStatusFact(once, delivery, key, status) == once
  {
  }

  /** Only the status of the named product can change: every other field of every
      product, and the set of products, stay as they were. */
  lemma StatusFactChangesOnlyStatus(products: map<int, Product>, delivery: Option<Message>, key: string, status: Status)
    ensures var r := AfterStatusFact(products, delivery, key, status);
            r.Keys == products.Keys && forall id :: id in r ==> r[id] == products[id].(status := r[id].status)
  {
  }

  /** When two status facts about the same product are consumed one after the
      other, the later one decides the status, whatever the earlier one set. */
  lemma LaterStatusFactWins(products: map<int, Product>, first: Option<Message>, firstKey: string, firstStatus: Status,
                            second: Option<Message>, secondKey: string, secondStatus: Status)
    requires StatusTarget(first, firstKey) == StatusTarget(second, secondKey)
    requires StatusTarget(second, secondKey).Some? && StatusTarget(second, secondKey).value in products
    ensures var id := StatusTarget(second, secondKey).value;
            var r := AfterStatusFact(AfterStatusFact(products, first, firstKey, firstStatus), second, secondKey, secondStatus);
            r[id].status == secondStatus && r.Keys == products.Keys
  {
  }

  /** The `stock.created` fact the inventory service announces makes the product
      AVAILABLE, when the product service still has it. */
  lemma AnnouncedCreationMakesAvailable(products: map<int, Product>, f: Fact)
    requires f.routingKey == StockCreated && f.productId in products
    ensures AfterStatusFact(products, Some(Delivered(f)), StockCreated, Available)[f.productId].status == Available
  {
  }

  /** The common shape of the three status consumers. */
  method SetStatusOnFact(table: ProductTable, delivery: Option<Message>, key: string, status: Status)
    returns (handled: Handled)
    requires table.Valid()
    modifies table
    ensures table.Valid() && table.nextId == old(table.nextId)
    ensures table.products == AfterStatusFact(old(table.products), delivery, key, status)
    ensures handled == Ignored <==> delivery.None? || delivery.value.routingKey != key
    ensures handled == Swallowed(NotJson) <==>
      delivery.Some? && delivery.value.routingKey == key && delivery.value.content.None?
    ensures handled == Applied <==>
      StatusTarget(delivery, key).Some? && StatusTarget(delivery, key).value in old(table.products)
    ensures handled != Applied ==> table.products == old(table.products)
    ensures handled != Swallowed(ValidationFailed) && handled != Swallowed(PublishFailed)
  {
    if delivery.None? || delivery.value.routingKey != key {
      return Ignored;
    }
    if delivery.value.content.None? {
      return Swallowed(NotJson);
    }
    var target := StatusTarget(delivery, key);
    if target.None? || target.value !in table.products {
      // the update finds no record (or the id fails validation) and throws
      return Swallowed(StoreRejected);
    }
    var id := target.value;
    table.products := table.products[id := table.products[id].(status := status)];
    handled := Applied;
  }

  /** `stockCreationHandler`. */
  method StockCreationHandler(table: ProductTable, delivery: Option<Message>) returns (handled: Handled)
    requires table.Valid()
    modifies table
    ensures table.Valid() && table.nextId == old(table.nextId)
    ensures table.products == AfterStatusFact(old(table.products), delivery, StockCreated, Available)
    ensures handled == Ignored <==> delivery.None? || delivery.value.routingKey != StockCreated
    ensures handled == Applied <==>
      StatusTarget(delivery, StockCreated).Some? && StatusTarget(delivery, StockCreated).value in old(table.products)
  {
    handled := SetStatusOnFact(table, delivery, StockCreated, Available);
  }

  /** `stockReplenishHandler`: AVAILABLE whatever the status was, OUT_OF_STOCK
      included. */
  method StockReplenishHandler(table: ProductTable, delivery: Option<Message>) returns (handled: Handled)
    requires table.Valid()
    modifies table
    ensures table.Valid() && table.nextId == old(table.nextId)
    ensures table.products == AfterStatusFact(old(table.products), delivery, StockReplenish, Available)
    ensures handled == Ignored <==> delivery.None? || delivery.value.routingKey != StockReplenish
    ensures handled == Applied <==>
      StatusTarget(delivery, StockReplenish).Some? && StatusTarget(delivery, StockReplenish).value in old(table.products)
  {
    handled := SetStatusOnFact(table, delivery, StockReplenish, Available);
  }

  /** `outOfStockHandler`. */
  method OutOfStockHandler(table: ProductTable, delivery: Option<Message>) returns (handled: Handled)
    requires table.Valid()
    modifies table
    ensures table.Valid() && table.nextId == old(table.nextId)
    ensures table.products == AfterStatusFact(old(table.products), delivery, StockOutOfStock, OutOfStock)
    ensures handled == Ignored <==> delivery.None? || delivery.value.routingKey != StockOutOfStock
    ensures handled == Applied <==>
      StatusTarget(delivery, StockOutOfStock).Some? && StatusTarget(delivery, StockOutOfStock).value in old(table.products)
  {
    handled := SetStatusOnFact(table, delivery, StockOutOfStock, OutOfStock);
  }

  /** The `where` filter of a `stock.deleted` delivery: the product id, and the
      seller id when the payload carries one (an absent one drops that
      condition). `None` when the delivery does not get as far as the delete or
      the database client rejects a field of the filter. */
  function DeletionFilter(delivery: Option<Message>): (r: Option<(int, Option<int>)>)
    ensures r.Some? ==> delivery.Some? && delivery.value.routingKey == StockDeleted && delivery.value.content.Some?
    ensures r.Some? ==> AsInt(delivery.value.content.value.productId) == Some(r.value.0)
    ensures r.Some? ==> (r.value.1.None? <==> delivery.value.content.value.sellerId.Missing?)
    ensures r.Some? && r.value.1.Some? ==> AsInt(delivery.value.content.value.sellerId) == r.value.1
    ensures delivery.Some? && delivery.value.routingKey == StockDeleted && delivery.value.content.Some? ==>
      var p := delivery.value.content.value;
      (r.Some? <==> AsInt(p.productId).Some? && (p.sellerId.Missing? || AsInt(p.sellerId).Some?))
  {
    if delivery.None? || delivery.value.routingKey != StockDeleted || delivery.value.content.None? then None
    else
      var p := delivery.value.content.value;
      match AsInt(p.productId)
      case None => None
      case Some(id) =>
        if p.sellerId.Missing? then Some((id, None))
        else match AsInt(p.sellerId)
          case Some(seller) => Some((id, Some(seller)))
          case None => None
  }

  /** Whether the filter matches a stored product. */
  predicate Matches(products: map<int, Product>, filter: (int, Option<int>))
  {
    filter.0 in products && (filter.1.None? || products[filter.0].sellerId == filter.1.value)
  }

  /** The products after a `stock.deleted` delivery: the product the filter
      matches is gone; nothing else changes. */
  function AfterStockDeleted(products: map<int, Product>, delivery: Option<Message>): (r: map<int, Product>)
    ensures DeletionFilter(delivery).Some? && Matches(products, DeletionFilter(delivery).value) ==>
      r == products - {DeletionFilter(delivery).value.0}
    ensures DeletionFilter(delivery).None? || !Matches(products, DeletionFilter(delivery).value) ==> r == products
    ensures forall id :: id in r <==> id in products && (DeletionFilter(delivery).None? || id != DeletionFilter(delivery).value.0 || !Matches(products, DeletionFilter(delivery).value))
    ensures forall id :: id in r ==> r[id] == products[id]
  {
    match DeletionFilter(delivery)
    case Some(filter) => if Matches(products, filter) then products - {filter.0} else products
    case None => products
  }

  /** A redelivered `stock.deleted` finds no product to delete, so it changes
      nothing. */
  lemma StockDeletionIdempotent(products: map<int, Product>, delivery: Option<Message>)
    ensures AfterStockDeleted(AfterStockDeleted(products, delivery), delivery) == AfterStockDeleted(products, delivery)
  {
  }

  /** The `stock.deleted` fact the inventory service announces carries no seller
      id, so it deletes the product whoever sells it. */
  lemma AnnouncedDeletionIgnoresSeller(products: map<int, Product>, f: Fact)
    requires f.routingKey == StockDeleted && f.productId in products
    ensures AfterStockDeleted(products, Some(Delivered(f))) == products - {f.productId}
  {
  }

  /** A `null` seller id is a condition of the filter, not an absent one: the
      database client refuses it for the seller column, so nothing is deleted. */
  lemma NullSellerIdDeletesNothing(products: map<int, Product>, productId: int)
    ensures var m := Some(Message(StockDeleted, Some(Payload(FromInt(productId), Missing, JsonNull))));
            DeletionFilter(m).None? && AfterStockDeleted(products, m) == products
  {
  }

  /** `stockDeletionHandler`. */
  method StockDeletionHandler(table: ProductTable, delivery: Option<Message>) returns (handled: Handled)
    requires table.Valid()
    modifies table
    ensures table.Valid() && table.nextId == old(table.nextId)
    ensures table.products == AfterStockDeleted(old(table.products), delivery)
    ensures handled == Ignored <==> delivery.None? || delivery.value.routingKey != StockDeleted
    ensures handled == Swallowed(NotJson) <==>
      delivery.Some? && delivery.value.routingKey == StockDeleted && delivery.value.content.None?
    ensures handled == Applied <==>
      DeletionFilter(delivery).Some? && Matches(old(table.products), DeletionFilter(delivery).value)
    ensures handled != Swallowed(ValidationFailed) && handled != Swallowed(PublishFailed)
  {
    if delivery.None? || delivery.value.routingKey != StockDeleted {
      return Ignored;
    }
    if delivery.value.content.None? {
      return Swallowed(NotJson);
    }
    var filter := DeletionFilter(delivery);
    if filter.None? || !Matches(table.products, filter.value) {
      // the delete finds no record (or the filter fails validation) and throws
      return Swallowed(StoreRejected);
    }
    table.products := table.products - {filter.value.0};
    handled := Applied;
  }
}
