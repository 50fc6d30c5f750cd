/** The inventory service's HTTP controllers over the stock ledger: one row per
    product holding `quantity` (units known to exist) and `reserved` (units held
    for sales in progress). Each controller checks its input, then the shared
    secret, then runs one transaction that reads the row under a lock, checks a
    business rule and increments or decrements one column. */
module InventoryControllers {
  import opened Values
  import InventoryItemDto

  /** One ledger row; the product id is its key in the ledger. */
  datatype Row = Row(quantity: int, reserved: int)

  /** Units that can still be reserved. */
  function Available(r: Row): int
  {
    r.quantity - r.reserved
  }

  /** The ledger invariant for one row. */
  predicate Consistent(r: Row)
  {
    0 <= r.reserved <= r.quantity
  }

  predicate LedgerConsistent(rows: map<int, Row>)
  {
    forall id :: id in rows ==> Consistent(rows[id])
  }

  /** A reservation of `n` units: `reserved` grows by `n`, `quantity` stays. */
  function ReserveRow(r: Row, n: int): (r': Row)
    requires Consistent(r) && 0 < n <= Available(r)
    ensures Consistent(r')
    ensures r'.quantity == r.quantity && r'.reserved == r.reserved + n
    ensures Available(r') == Available(r) - n
  {
    r.(reserved := r.reserved + n)
  }

  /** A sale of `n` reserved units, as the controller performs it: only
      `reserved` shrinks, so the sold units become available again. */
  function SellRow(r: Row, n: int): (r': Row)
    requires Consistent(r) && 0 < n <= r.reserved
    ensures Consistent(r')
    ensures r'.quantity == r.quantity && r'.reserved == r.reserved - n
    ensures Available(r') == Available(r) + n
  {
    r.(reserved := r.reserved - n)
  }

  /** A sale of `n` reserved units that consumes them: `quantity` and `reserved`
      both shrink, so availability is unchanged. */
  function SellRowIntended(r: Row, n: int): (r': Row)
    requires Consistent(r) && 0 < n <= r.reserved
    ensures Consistent(r')
    ensures r'.quantity == r.quantity - n && r'.reserved == r.reserved - n
    ensures Available(r') == Available(r)
  {
    Row(r.quantity - n, r.reserved - n)
  }

  /** A replenishment of `n` units: `quantity` grows by `n`, `reserved` stays. */
  function ReplenishRow(r: Row, n: int): (r': Row)
    requires Consistent(r) && 0 < n
    ensures Consistent(r')
    ensures r'.quantity == r.quantity + n && r'.reserved == r.reserved
    ensures Available(r') == Available(r) + n
  {
    r.(quantity := r.quantity + n)
  }

  /** The library whose error reached a controller's catch block. */
  datatype Library = Prisma | Zod

  /** What a controller throws: its own `{ status, message }` object (0 and ""
      stand for an absent status and message), or a library error, which has a
      message of its own and no status. */
  datatype Thrown = Raised(status: int, message: string) | LibraryError(origin: Library)

  const InvalidInput := "Invalid productId or quantity"
  const Unauthorized := "Unauthorized request"
  const NotFound := "Inventory not found"
  const InsufficientStock := "Insufficient stock"
  const NotEnoughReserved := "Not enough reserved stock"
  const InternalError := "Internal server error"
  const StockReserved := "Stock reserved successfully"
  const StockUpdated := "Stock updated successfully"

  datatype Body =
    | Stock(stock: int)                                  // { stock }
    | Text(message: string)                              // { message }
    | NoMessage                                          // { message: undefined }
    | Created(productId: int, quantity: int, reserved: int)  // the validated row
    | Error(error: string)                               // { error }
    | LibraryMessage(origin: Library)                    // { error } with the library's message

  datatype Reply = Reply(status: int, body: Body)

  /** The catch block all five controllers end with: the thrown status or 500,
      the thrown message or a default one. */
  function ErrorReply(e: Thrown): (r: Reply)
    ensures e.Raised? && e.status != 0 ==> r.status == e.status
    ensures e.Raised? && e.status == 0 ==> r.status == 500
    ensures e.Raised? && e.message == "" ==> r.body == Error(InternalError)
    ensures e.Raised? && e.message != "" ==> r.body == Error(e.message)
    ensures e.LibraryError? ==> r == Reply(500, LibraryMessage(e.origin))
  {
    match e
    case Raised(status, message) =>
      Reply(if status != 0 then status else 500, Error(if message != "" then message else InternalError))
    case LibraryError(origin) => Reply(500, LibraryMessage(origin))
  }

  /** The input check shared by reserve, sell and replenish: a truthy product id
      and a positive JSON number. */
  predicate WellFormed(productId: ParsedInt, quantity: Value)
  {
    TruthyInt(productId) && quantity.Number? && quantity.x > 0.0
  }

  /** The ledger table. The transactions of the source run here one at a time,
      each as one method call. */
  class Ledger {
    var rows: map<int, Row>

    ghost predicate Valid()
      reads this
    {
      LedgerConsistent(rows)
    }

    constructor ()
      ensures rows == map[] && Valid()
    {
      rows := map[];
    }

    /** `getStock`: the secret is checked before the id; the reply carries the
        row's `quantity`, not its available amount, once the row passes the
        inventory item schema. */
    method GetStock(authorized: bool, productId: ParsedInt) returns (reply: Reply)
      ensures !authorized ==> reply == Reply(403, Error(Unauthorized))
      ensures authorized && productId.NaN? ==> reply == Reply(400, Error(InvalidInput))
      ensures authorized && productId.Int? && productId.n !in rows ==> reply == Reply(404, Error(NotFound))
      ensures authorized && productId.Int? && productId.n in rows ==>
        reply == (var row := rows[productId.n];
                  if InventoryItemDto.AcceptsStored(productId.n, row.quantity, row.reserved)
                  then Reply(200, Stock(row.quantity))
                  else Reply(500, LibraryMessage(Zod)))
    {
      if !authorized {
        return ErrorReply(Raised(403, Unauthorized));
      }
      if productId.NaN? {
        return ErrorReply(Raised(400, InvalidInput));
      }
      var id := productId.n;
      if id !in rows {
        return ErrorReply(Raised(404, NotFound));
      }
      var row := rows[id];
      if !InventoryItemDto.AcceptsStored(id, row.quantity, row.reserved) {
        return ErrorReply(LibraryError(Zod));
      }
      reply := Reply(200, Stock(row.quantity));
    }

    /** `reserveStock`: holds `quantity` more units of a product when at least
        that many are available. */
    method ReserveStock(authorized: bool, productId: ParsedInt, quantity: Value) returns (reply: Reply)
      requires Valid()
      modifies this
      ensures Valid()
      ensures reply.status != 200 ==> rows == old(rows)
      ensures !WellFormed(productId, quantity) ==> reply == Reply(400, Error(InvalidInput))
      ensures WellFormed(productId, quantity) && !authorized ==> reply == Reply(403, Error(Unauthorized))
      ensures WellFormed(productId, quantity) && authorized && productId.n !in old(rows) ==>
        reply == Reply(404, Error(NotFound))
      ensures WellFormed(productId, quantity) && authorized && productId.n in old(rows)
              && (Available(old(rows)[productId.n]) as real) < quantity.x ==>
        reply == Reply(409, Error(InsufficientStock))
      ensures WellFormed(productId, quantity) && authorized && productId.n in old(rows)
              && quantity.x <= Available(old(rows)[productId.n]) as real && !IsInteger(quantity.x) ==>
        reply == Reply(500, LibraryMessage(Prisma))
      ensures reply.status == 200 <==>
        WellFormed(productId, quantity) && authorized && productId.n in old(rows)
        && quantity.x <= Available(old(rows)[productId.n]) as real && IsInteger(quantity.x)
      ensures reply.status == 200 ==>
        && reply.body == Text(StockReserved)
        && rows == old(rows)[productId.n := ReserveRow(old(rows)[productId.n], quantity.x.Floor)]
    {
      if !WellFormed(productId, quantity) {
        return ErrorReply(Raised(400, InvalidInput));
      }
      if !authorized {
        return ErrorReply(Raised(403, Unauthorized));
      }
      var id, amount := productId.n, quantity.x;
      if id !in rows {
        return ErrorReply(Raised(404, NotFound));
      }
      var row := rows[id];
      if (Available(row) as real) < amount {
        return ErrorReply(Raised(409, InsufficientStock));
      }
      if !IsInteger(amount) {
        // the database client refuses a fractional increment of an integer column
        return ErrorReply(LibraryError(Prisma));
      }
      rows := rows[id := ReserveRow(row, amount.Floor)];
      reply := Reply(200, Text(StockReserved));
    }

    /** `sellStock`: turns `quantity` reserved units into a sale. The row is
        validated first; the update decrements `reserved` only. */
    method SellStock(authorized: bool, productId: ParsedInt, quantity: Value) returns (reply: Reply)
      requires Valid()
      modifies this
      ensures Valid()
      ensures reply.status != 200 ==> rows == old(rows)
      ensures !WellFormed(productId, quantity) ==> reply == Reply(400, Error(InvalidInput))
      ensures WellFormed(productId, quantity) && !authorized ==> reply == Reply(403, Error(Unauthorized))
      ensures WellFormed(productId, quantity) && authorized && productId.n !in old(rows) ==>
        reply == Reply(404, Error(NotFound))
      ensures WellFormed(productId, quantity) && authorized && productId.n in old(rows)
              && productId.n < 0 ==>
        reply == Reply(500, LibraryMessage(Zod))
      ensures WellFormed(productId, quantity) && authorized && productId.n in old(rows)
              && productId.n >= 0 && (old(rows)[productId.n].reserved as real) < quantity.x ==>
        reply == Reply(409, Error(NotEnoughReserved))
      ensures reply.status == 200 <==>
        WellFormed(productId, quantity) && authorized && productId.n in old(rows) && productId.n >= 0
        && quantity.x <= old(rows)[productId.n].reserved as real && IsInteger(quantity.x)
      ensures reply.status == 200 ==>
        && reply.body == Text(StockUpdated)
        && rows == old(rows)[productId.n := SellRow(old(rows)[productId.n], quantity.x.Floor)]
    {
      if !WellFormed(productId, quantity) {
        return ErrorReply(Raised(400, InvalidInput));
      }
      if !authorized {
        return ErrorReply(Raised(403, Unauthorized));
      }
      var id, amount := productId.n, quantity.x;
      if id !in rows {
        return ErrorReply(Raised(404, NotFound));
      }
      var row := rows[id];
      if !InventoryItemDto.AcceptsStored(id, row.quantity, row.reserved) {
        return ErrorReply(LibraryError(Zod));
      }
      if (row.reserved as real) < amount {
        return ErrorReply(Raised(409, NotEnoughReserved));
      }
      if !IsInteger(amount) {
        return ErrorReply(LibraryError(Prisma));
      }
      rows := rows[id := SellRow(row, amount.Floor)];
      reply := Reply(200, Text(StockUpdated));
    }

    /** `replenishStock`: adds `quantity` units to an existing row. The
        transaction returns nothing, so the reply's message is undefined. */
    method ReplenishStock(authorized: bool, productId: ParsedInt, quantity: Value) returns (reply: Reply)
      requires Valid()
      modifies this
      ensures Valid()
      ensures reply.status != 200 ==> rows == old(rows)
      ensures !WellFormed(productId, quantity) ==> reply == Reply(400, Error(InvalidInput))
      ensures WellFormed(productId, quantity) && !authorized ==> reply == Reply(403, Error(Unauthorized))
      ensures WellFormed(productId, quantity) && authorized && productId.n !in old(rows) ==>
        reply == Reply(404, Error(NotFound))
      ensures WellFormed(productId, quantity) && authorized && productId.n in old(rows)
              && !IsInteger(quantity.x) ==>
        reply == Reply(500, LibraryMessage(Prisma))
      ensures reply.status == 200 <==>
        WellFormed(productId, quantity) && authorized && productId.n in old(rows) && IsInteger(quantity.x)
      ensures reply.status == 200 ==>
        && reply.body == NoMessage
        && rows == old(rows)[productId.n := ReplenishRow(old(rows)[productId.n], quantity.x.Floor)]
    {
      if !WellFormed(productId, quantity) {
        return ErrorReply(Raised(400, InvalidInput));
      }
      if !authorized {
        return ErrorReply(Raised(403, Unauthorized));
      }
      var id, amount := productId.n, quantity.x;
      if id !in rows {
        return ErrorReply(Raised(404, NotFound));
      }
      if !IsInteger(amount) {
        return ErrorReply(LibraryError(Prisma));
      }
      rows := rows[id := ReplenishRow(rows[id], amount.Floor)];
      reply := Reply(200, NoMessage);
    }

    /** `createStockEntry`: inserts a row with nothing reserved. It uses a plain
        insert, so a second entry for the same product fails on the unique key.
        The new row is validated after the insert, outside any transaction: a
        row that fails the schema stays in the ledger behind a 500 reply. */
    method CreateStockEntry(authorized: bool, productId: Value, quantity: Value) returns (reply: Reply)
      requires Valid()
      modifies this
      ensures Valid()
      ensures !(Truthy(productId) && quantity.Number? && quantity.x > 0.0) ==>
        reply == Reply(400, Error(InvalidInput)) && rows == old(rows)
      ensures Truthy(productId) && quantity.Number? && quantity.x > 0.0 && !authorized ==>
        reply == Reply(403, Error(Unauthorized)) && rows == old(rows)
      ensures Truthy(productId) && quantity.Number? && quantity.x > 0.0 && authorized
              && (AsInt(productId).None? || !IsInteger(quantity.x)) ==>
        reply == Reply(500, LibraryMessage(Prisma)) && rows == old(rows)
      ensures Truthy(productId) && quantity.Number? && quantity.x > 0.0 && authorized
              && AsInt(productId).Some? && AsInt(productId).value in old(rows) ==>
        reply == Reply(500, LibraryMessage(Prisma)) && rows == old(rows)
      ensures Truthy(productId) && quantity.Number? && quantity.x > 0.0 && authorized
              && AsInt(productId).Some? && AsInt(productId).value !in old(rows) && IsInteger(quantity.x) ==>
        var id, n := AsInt(productId).value, quantity.x.Floor;
        && rows == old(rows)[id := Row(n, 0)]
        && reply == (if id >= 0 then Reply(201, Created(id, n, 0)) else Reply(500, LibraryMessage(Zod)))
    {
      if !(Truthy(productId) && quantity.Number? && quantity.x > 0.0) {
        return ErrorReply(Raised(400, InvalidInput));
      }
      if !authorized {
        return ErrorReply(Raised(403, Unauthorized));
      }
      if AsInt(productId).None? || !IsInteger(quantity.x) {
        return ErrorReply(LibraryError(Prisma));
      }
      var id, n := AsInt(productId).value, quantity.x.Floor;
      if id in rows {
        // unique constraint on productId
        return ErrorReply(LibraryError(Prisma));
      }
      rows := rows[id := Row(n, 0)];
      if !InventoryItemDto.AcceptsStored(id, n, 0) {
        return ErrorReply(LibraryError(Zod));
      }
      reply := Reply(201, Created(id, n, 0));
    }
  }
}
