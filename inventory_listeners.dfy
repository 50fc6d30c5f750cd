/** The inventory service's consumers of product facts. `product.created` opens
    a ledger row for the product (or keeps the one already there) and announces
    `stock.created`; `product.deleted` removes the row and announces
    `stock.deleted`. Both catch every error. The announcement goes through a
    publish that may fail; its retries are not part of this model, only whether
    it finally succeeded (`publishOk`). */
module InventoryListeners {
  import opened Values
  import opened Messages
  import InventoryItemDto
  import InventoryControllers

  type Row = InventoryControllers.Row
  type Ledger = InventoryControllers.Ledger

  /** The product id and quantity a `product.created` delivery asks for, when it
      gets as far as the upsert and the database client accepts both as integers. */
  function CreationTarget(delivery: Option<Message>): (r: Option<(int, int)>)
    ensures r.Some? ==> delivery.Some? && delivery.value.routingKey == ProductCreated
    ensures r.Some? ==> delivery.value.content.Some?
    ensures r.Some? ==> AsInt(delivery.value.content.value.productId) == Some(r.value.0)
    ensures r.Some? ==> AsInt(delivery.value.content.value.quantity) == Some(r.value.1)
    ensures (&& delivery.Some? && delivery.value.routingKey == ProductCreated && delivery.value.content.Some?
             && AsInt(delivery.value.content.value.productId).Some?
             && AsInt(delivery.value.content.value.quantity).Some?) ==> r.Some?
  {
    if delivery.None? || delivery.value.routingKey != ProductCreated || delivery.value.content.None? then None
    else
      var payload := delivery.value.content.value;
      match (AsInt(payload.productId), AsInt(payload.quantity))
      case (Some(id), Some(q)) => Some((id, q))
      case _ => None
  }

  /** The ledger after a `product.created` delivery: the upsert leaves an existing
      row as it is (`update: {}`) and otherwise inserts `{ quantity, reserved: 0 }`;
      the transaction rolls back when the row fails the inventory item schema. */
  function CreationEffect(rows: map<int, Row>, delivery: Option<Message>): (r: map<int, Row>)
    ensures r.Keys >= rows.Keys
    ensures forall id :: id in rows ==> r[id] == rows[id]
    ensures CreationTarget(delivery).None? ==> r == rows
    ensures CreationTarget(delivery).Some? && CreationTarget(delivery).value.0 in rows ==> r == rows
    ensures CreationTarget(delivery).Some? && CreationTarget(delivery).value.0 !in rows ==>
      var (id, q) := CreationTarget(delivery).value;
      r == if InventoryItemDto.AcceptsStored(id, q, 0) then rows[id := InventoryControllers.Row(q, 0)] else rows
  {
    match CreationTarget(delivery)
    case None => rows
    case Some((id, q)) =>
      if id in rows then rows
      else if InventoryItemDto.AcceptsStored(id, q, 0) then rows[id := InventoryControllers.Row(q, 0)]
      else rows
  }

  /** The row the upsert returns: the stored one when there is one, otherwise
      the one it inserts. */
  function Upserted(rows: map<int, Row>, id: int, q: int): (r: Row)
    ensures id in rows ==> r == rows[id]
    ensures id !in rows ==> r.quantity == q && r.reserved == 0
  {
    if id in rows then rows[id] else InventoryControllers.Row(q, 0)
  }

  /** Redelivering a `product.created` fact leaves the ledger as the first
      delivery left it. */
  lemma CreationIdempotent(rows: map<int, Row>, delivery: Option<Message>)
    ensures CreationEffect(CreationEffect(rows, delivery), delivery) == CreationEffect(rows, delivery)
  {
  }

  /** The rows that the creation handler inserts keep the ledger invariant. */
  lemma CreationKeepsLedgerConsistent(rows: map<int, Row>, delivery: Option<Message>)
    requires InventoryControllers.LedgerConsistent(rows)
    ensures InventoryControllers.LedgerConsistent(CreationEffect(rows, delivery))
  {
  }

  /** `productCreationHandler`. */
  method ProductCreationHandler(ledger: Ledger, delivery: Option<Message>, publishOk: bool)
    returns (handled: Handled, announced: Option<Fact>)
    requires ledger.Valid()
    modifies ledger
    ensures ledger.Valid()
    ensures ledger.rows == CreationEffect(old(ledger.rows), delivery)
    ensures handled == Ignored <==> delivery.None? || delivery.value.routingKey != ProductCreated
    ensures handled == Swallowed(NotJson) <==>
      delivery.Some? && delivery.value.routingKey == ProductCreated && delivery.value.content.None?
    ensures handled == Swallowed(StoreRejected) <==>
      delivery.Some? && delivery.value.routingKey == ProductCreated && delivery.value.content.Some?
      && CreationTarget(delivery).None?
    ensures CreationTarget(delivery).Some? ==>
      var (id, q) := CreationTarget(delivery).value;
      var item := Upserted(old(ledger.rows), id, q);
      && (handled == Swallowed(ValidationFailed) <==>
            !InventoryItemDto.AcceptsStored(id, item.quantity, item.reserved))
      && (handled == Applied <==>
            InventoryItemDto.AcceptsStored(id, item.quantity, item.reserved) && publishOk)
      && (announced.Some? ==> announced.value == Fact(InventoryEvent, StockCreated, id, item.quantity))
    ensures announced.Some? <==> handled == Applied
  {
    announced := None;
    if delivery.None? || delivery.value.routingKey != ProductCreated {
      return Ignored, None;
    }
    if delivery.value.content.None? {
      return Swallowed(NotJson), None;
    }
    var target := CreationTarget(delivery);
    if target.None? {
      return Swallowed(StoreRejected), None;
    }
    var (id, q) := target.value;
    // the transaction: upsert, then validate the row it returns
    var item := Upserted(ledger.rows, id, q);
    if !InventoryItemDto.AcceptsStored(id, item.quantity, item.reserved) {
      // the schema throws inside the transaction, which rolls the insert back
      return Swallowed(ValidationFailed), None;
    }
    ledger.rows := ledger.rows[id := item];
    // after the commit: announce the stored row
    if !publishOk {
      return Swallowed(PublishFailed), None;
    }
    handled, announced := Applied, Some(Fact(InventoryEvent, StockCreated, id, item.quantity));
  }

  /** The product id a `product.deleted` delivery names, when it gets as far as
      the delete and the database client accepts it as an integer. The payload's
      `sellerId` is read but plays no part. */
  function DeletionTarget(delivery: Option<Message>): (r: Option<int>)
    ensures r.Some? ==> delivery.Some? && delivery.value.routingKey == ProductDeleted
    ensures r.Some? ==> delivery.value.content.Some?
    ensures r.Some? ==> AsInt(delivery.value.content.value.productId) == r
    ensures (&& delivery.Some? && delivery.value.routingKey == ProductDeleted && delivery.value.content.Some?
             && AsInt(delivery.value.content.value.productId).Some?) ==> r.Some?
  {
    if delivery.None? || delivery.value.routingKey != ProductDeleted || delivery.value.content.None? then None
    else AsInt(delivery.value.content.value.productId)
  }

  /** The ledger after a `product.deleted` delivery: the product's row is gone and
      every other row is as it was. */
  function DeletionEffect(rows: map<int, Row>, delivery: Option<Message>): (r: map<int, Row>)
    ensures DeletionTarget(delivery).None? ==> r == rows
    ensures DeletionTarget(delivery).Some? ==>
      DeletionTarget(delivery).value !in r && r.Keys == rows.Keys - {DeletionTarget(delivery).value}
    ensures forall id :: id in r ==> id in rows && r[id] == rows[id]
  {
    match DeletionTarget(delivery)
    case None => rows
    case Some(id) => rows - {id}
  }

  /** Redelivering a `product.deleted` fact changes nothing more. */
  lemma DeletionIdempotent(rows: map<int, Row>, delivery: Option<Message>)
    ensures DeletionEffect(DeletionEffect(rows, delivery), delivery) == DeletionEffect(rows, delivery)
  {
  }

  /** `productDeletionHandler`. A missing row makes the delete throw, so nothing
      is announced. The deleted row is validated after the delete, outside any
      transaction: a row that fails the schema is gone but not announced. */
  method ProductDeletionHandler(ledger: Ledger, delivery: Option<Message>, publishOk: bool)
    returns (handled: Handled, announced: Option<Fact>)
    requires ledger.Valid()
    modifies ledger
    ensures ledger.Valid()
    ensures handled == Ignored <==> delivery.None? || delivery.value.routingKey != ProductDeleted
    ensures handled == Swallowed(NotJson) <==>
      delivery.Some? && delivery.value.routingKey == ProductDeleted && delivery.value.content.None?
    ensures DeletionTarget(delivery).Some? && DeletionTarget(delivery).value !in old(ledger.rows) ==>
      handled == Swallowed(StoreRejected) && ledger.rows == old(ledger.rows)
    ensures DeletionTarget(delivery).Some? && DeletionTarget(delivery).value in old(ledger.rows) ==>
      var id := DeletionTarget(delivery).value;
      var row := old(ledger.rows)[id];
      && ledger.rows == DeletionEffect(old(ledger.rows), delivery)
      && (handled == Swallowed(ValidationFailed) <==> !InventoryItemDto.AcceptsStored(id, row.quantity, row.reserved))
      && (handled == Applied <==> InventoryItemDto.AcceptsStored(id, row.quantity, row.reserved) && publishOk)
      && (announced.Some? ==> announced.value == Fact(InventoryEvent, StockDeleted, id, row.quantity))
    ensures handled != Applied ==> announced.None?
    ensures announced.Some? <==> handled == Applied
    ensures DeletionTarget(delivery).None? ==> ledger.rows == old(ledger.rows)
    ensures (&& delivery.Some? && delivery.value.routingKey == ProductDeleted && delivery.value.content.Some?
             && DeletionTarget(delivery).None?) ==> handled == Swallowed(StoreRejected)
  {
    if delivery.None? || delivery.value.routingKey != ProductDeleted {
      return Ignored, None;
    }
    if delivery.value.content.None? {
      return Swallowed(NotJson), None;
    }
    var target := DeletionTarget(delivery);
    if target.None? || target.value !in ledger.rows {
      return Swallowed(StoreRejected), None;
    }
    var id := target.value;
    var row := ledger.rows[id];
    ledger.rows := ledger.rows - {id};
    if !InventoryItemDto.AcceptsStored(id, row.quantity, row.reserved) {
      return Swallowed(ValidationFailed), None;
    }
    if !publishOk {
      return Swallowed(PublishFailed), None;
    }
    handled, announced := Applied, Some(Fact(InventoryEvent, StockDeleted, id, row.quantity));
  }
}
