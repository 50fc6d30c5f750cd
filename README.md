# E-commerce microservices: a Dafny model of the core

This project models the core of a small e-commerce backend made of three
services and a shared message-broker client:

- **inventory service**: a stock ledger with one row per product, holding
  `quantity` and `reserved`. It exposes HTTP controllers to read, reserve,
  sell and replenish stock and to create a stock entry. Its consumers turn
  `product.created` and `product.deleted` facts into ledger rows, and they
  announce `stock.created` and `stock.deleted` in return.
- **product service**: a product table. Sellers create, update, delete and
  list their products through controllers that check the role and ownership.
  The consumers of stock facts project each fact onto the product's `status`,
  or delete the product.
- **auth service**: users and refresh-token sessions. It covers registration
  with unique emails, login capped at three unexpired sessions per user,
  logout of one session or of all of them, and refresh-token rotation that
  evicts the oldest session.
- **RabbitMQ helper**: one connection and one channel per process, with a
  fail-fast guard. Its consume callback acknowledges a message when the
  handler returns and requeues it when the handler throws.
- **request schemas** (zod), each modelled as a `Parse` function that
  returns `None` where the schema throws.

The database and the broker are modelled as state. The ledger
(`InventoryControllers.Ledger`), the product table (`Catalog.ProductTable`),
the user and session store (`AuthControllers.AuthStore`) and the broker
client (`RabbitMQ.RabbitMQHelper`, which keeps a log of the library calls it
makes) are classes with mutable fields. The ledger, the store and the broker
client have methods that update their fields; the product table has only a
constructor, and the seller controllers and the stock-fact consumers are
module-level methods that take the table and update it. The read-only seller
listing (`SellerControllers.GetSellerProducts`) is a function. Each
state-changing method is specified by pure functions, and lemmas prove the
properties of those functions:

- idempotence on redelivery;
- the ledger invariant `0 <= reserved <= quantity`;
- no overcommitted reservation;
- the session cap;
- newest-first, duplicate-free seller listings.

The clock (`now`), the random refresh token, the outcome of a publish with
retries and whether a handler threw are all parameters.

## Model

| member | source | states |
|---|---|---|
| InventoryItemDto.NonNegativeInt | inventory-service/src/dto/inventory.item.ts:4-6 | accepts exactly the integral JSON numbers at least 0 and returns that integer |
| InventoryItemDto.CoerceDate | inventory-service/src/dto/inventory.item.ts:8-9 | date coercion succeeds exactly for null (the epoch) and for a time value within the ECMAScript Date range, and keeps the instant |
| InventoryItemDto.CoerceRestockAt | inventory-service/src/dto/inventory.item.ts:7 | absent or null gives a null restock date; any other input must be a valid date, which is kept |
| InventoryItemDto.Parse | inventory-service/src/dto/inventory.item.ts:3-10 | accepts exactly when the three counters are non-negative integers, `restockAt` is absent or a valid date, and both timestamps are valid dates; every field, the two timestamps included, carries the coerced input value |
| InventoryItemDto.StoredRowVerdict | inventory-service/src/dto/inventory.item.ts:3-10 | a row as the database returns it passes the schema exactly when its three integer columns are non-negative, and then parses to the same values with no restock date |
| InventoryItemDto.ReservedAboveQuantityAccepted | inventory-service/src/dto/inventory.item.ts:5-6 | the schema does not relate `reserved` to `quantity`: an item with more reserved than on hand passes |
| InventoryItemDto.TimestampsRequired | inventory-service/src/dto/inventory.item.ts:8-9 | an item without `createdAt` or `updatedAt` is refused |
| StockEntryRequestDto.Field | inventory-service/src/dto/stock.entry.request.ts:4-5 | accepts exactly a non-negative integral number; an integral negative one is refused with the field's own issue |
| StockEntryRequestDto.Parse | inventory-service/src/dto/stock.entry.request.ts:3-6 | accepts exactly when both fields are non-negative integers, and keeps their values |
| StockEntryRequestDto.ZeroQuantityAccepted | inventory-service/src/dto/stock.entry.request.ts:5 | a quantity of zero passes, whatever its message says about being positive |
| CreateProductDto.Texts | product-service/src/dto/create.product.ts:7 | the image strings, one for each entry, in order |
| CreateProductDto.ParseImages | product-service/src/dto/create.product.ts:7 | accepts exactly an absent list or a list of URLs; an absent list defaults to empty |
| CreateProductDto.Parse | product-service/src/dto/create.product.ts:3-9 | accepts exactly when name, description and category are non-empty strings, the price is positive and the images are URLs; the result carries those values |
| UpdateProductDto.Parse | product-service/src/dto/update.product.ts:3-8 | the create-product rules without a category: accepts exactly under them and carries the values |
| QueryDto.OptionalText | product-service/src/dto/query.ts:4-5 | absent gives no value, a string is kept, anything else is refused |
| QueryDto.OptionalPrice | product-service/src/dto/query.ts:6-7 | absent gives no value; a coerced number is accepted exactly when it is at least 0; NaN is refused |
| QueryDto.OptionalSortKey | product-service/src/dto/query.ts:8 | accepts exactly absent, "price", "createdAt" and "name", each mapped to its own key |
| QueryDto.OptionalOrder | product-service/src/dto/query.ts:9 | accepts exactly absent, "asc" and "desc", each mapped to its own order |
| QueryDto.Parse | product-service/src/dto/query.ts:3-10 | accepts exactly when every field is accepted, and carries every field's parsed value |
| QueryDto.EmptyQueryAccepted | product-service/src/dto/query.ts:3-10 | every field is optional: the empty query parses to a query with nothing set |
| QueryDto.MinAboveMaxAccepted | product-service/src/dto/query.ts:6-7 | the schema does not relate the bounds: a minimum above the maximum passes unchanged |
| InventoryControllers.ReserveRow | inventory-service/src/controllers/inventory.controllers.ts:47-54 | a reservation within availability keeps the row consistent, grows `reserved` by n and shrinks availability by n |
| InventoryControllers.SellRow | inventory-service/src/controllers/inventory.controllers.ts:85-92 | the sale as written: only `reserved` shrinks, so availability grows by the n units sold |
| InventoryControllers.SellRowIntended | inventory-service/src/controllers/inventory.controllers.ts:85-92 | a sale that consumes stock: `quantity` and `reserved` both shrink by n and availability is unchanged |
| InventoryControllers.ReplenishRow | inventory-service/src/controllers/inventory.controllers.ts:121-128 | a replenishment keeps the row consistent and grows `quantity` and availability by n |
| InventoryControllers.ErrorReply | inventory-service/src/controllers/inventory.controllers.ts:19-24 | the shared catch block: the thrown status or 500, the thrown message or "Internal server error", and 500 for a library error |
| InventoryControllers.Ledger.GetStock | inventory-service/src/controllers/inventory.controllers.ts:6-26 | 403 before 400 before 404; the reply carries the row's `quantity` once the row passes the item schema, else 500 |
| InventoryControllers.Ledger.ReserveStock | inventory-service/src/controllers/inventory.controllers.ts:28-66 | 400, 403, 404, 409 "Insufficient stock" and 500 for a fractional amount, each leaving the ledger as it was; 200 exactly when the amount is within availability, and then only that row's `reserved` grows; the ledger invariant is kept |
| InventoryControllers.Ledger.SellStock | inventory-service/src/controllers/inventory.controllers.ts:68-105 | 400, 403, 404, 500 for a row the schema refuses, and 409 "Not enough reserved stock"; 200 exactly when the amount is within `reserved`, and then that row becomes `SellRow` of it; the ledger invariant is kept |
| InventoryControllers.Ledger.ReplenishStock | inventory-service/src/controllers/inventory.controllers.ts:107-140 | 400, 403, 404 and 500 for a fractional amount, each leaving the ledger as it was; 200 with an undefined message, and then only that row's `quantity` grows |
| InventoryControllers.Ledger.CreateStockEntry | inventory-service/src/controllers/inventory.controllers.ts:142-161 | 400 and 403 checks; 500 when the id or amount is not an integer or the row exists (unique key); otherwise a row `{quantity, reserved: 0}` is inserted, with 201, or with 500 when the row fails the schema after the insert |
| LedgerRuns.Step | inventory-service/src/controllers/inventory.controllers.ts:28-140 | one reserve, sell or replenish call keeps `0 <= reserved <= quantity` |
| LedgerRuns.Run | inventory-service/src/controllers/inventory.controllers.ts:28-140 | any sequence of these calls keeps the ledger invariant |
| LedgerRuns.ReservationsNeverOvercommit | inventory-service/src/controllers/inventory.controllers.ts:42-45 | with reservations alone, `quantity` is fixed and the units reserved never exceed what was available at the start |
| LedgerRuns.ExhaustedRowRefusesReservation | inventory-service/src/controllers/inventory.controllers.ts:42-45 | a row with nothing available refuses every reservation and stays as it was |
| LedgerRuns.IntendedRunConservesStock | inventory-service/src/controllers/inventory.controllers.ts:85-92 | with sales that consume stock, `quantity + sold - replenished` is the same before and after any run |
| LedgerRuns.IntendedNeverOversells | inventory-service/src/controllers/inventory.controllers.ts:85-92 | with sales that consume stock, no run sells more than the starting quantity plus what was replenished |
| LedgerRuns.AsWrittenOversells | inventory-service/src/controllers/inventory.controllers.ts:85-92 | with the sale as written, reserve n, sell n, reserve n, sell n on a row of n units sells 2n units with nothing replenished |
| Messages.Delivered | inventory-service/src/rabbitmq/listeners/product.created.listener.ts:28-31 | an announced fact reaches a consumer with its routing key, its integer product id and quantity, and no seller id |
| InventoryListeners.CreationTarget | inventory-service/src/rabbitmq/listeners/product.created.listener.ts:8-15 | a product id and quantity are reached exactly for a `product.created` delivery with JSON content whose two fields are integers, and they are those integers |
| InventoryListeners.CreationEffect | inventory-service/src/rabbitmq/listeners/product.created.listener.ts:16-25 | when the row exists (`update: {}`) the ledger is unchanged, and no existing row ever changes; a missing row is inserted as `{quantity, reserved: 0}` unless the schema refuses it, which rolls the insert back |
| InventoryListeners.Upserted | inventory-service/src/rabbitmq/listeners/product.created.listener.ts:17-21 | the upsert returns the stored row when there is one, else the row it creates |
| InventoryListeners.CreationIdempotent | inventory-service/src/rabbitmq/listeners/product.created.listener.ts:17-21 | redelivering `product.created` leaves the ledger as the first delivery left it |
| InventoryListeners.CreationKeepsLedgerConsistent | inventory-service/src/rabbitmq/listeners/product.created.listener.ts:17-21 | the rows the consumer inserts keep `0 <= reserved <= quantity` |
| InventoryListeners.ProductCreationHandler | inventory-service/src/rabbitmq/listeners/product.created.listener.ts:6-43 | ignores other keys; swallows a non-JSON body, a rejected id, a row the schema refuses and a failed publish; the ledger becomes `CreationEffect`; it announces `stock.created` with the stored quantity exactly when it applies |
| InventoryListeners.DeletionTarget | inventory-service/src/rabbitmq/listeners/product.deleted.listener.ts:8-15 | a product id is reached exactly for a `product.deleted` delivery with JSON content whose id is an integer, and it is that integer |
| InventoryListeners.DeletionEffect | inventory-service/src/rabbitmq/listeners/product.deleted.listener.ts:15 | the named row is gone and every other row is as it was |
| InventoryListeners.DeletionIdempotent | inventory-service/src/rabbitmq/listeners/product.deleted.listener.ts:15 | redelivering `product.deleted` changes nothing more |
| InventoryListeners.ProductDeletionHandler | inventory-service/src/rabbitmq/listeners/product.deleted.listener.ts:6-34 | a missing row is swallowed with nothing changed; otherwise the row is deleted, even when it then fails the schema, and `stock.deleted` with its quantity is announced exactly when the schema and the publish succeed |
| ProductListeners.StatusTarget | product-service/src/rabbitmq/listeners/stock.created.listener.ts:6-14 | a product id is reached exactly for a delivery under the key with JSON content whose id is an integer |
| ProductListeners.AfterStatusFact | product-service/src/rabbitmq/listeners/stock.created.listener.ts:13-16 | the named product, when it exists, gets the new status; the set of products and every other product are unchanged |
| ProductListeners.StatusFactIdempotent | product-service/src/rabbitmq/listeners/stock.created.listener.ts:13-16 | redelivering a status fact gives the same table |
| ProductListeners.StatusFactChangesOnlyStatus | product-service/src/rabbitmq/listeners/stock.created.listener.ts:13-16 | only the `status` field of a product can change |
| ProductListeners.LaterStatusFactWins | product-service/src/rabbitmq/listeners/stock.out_of_stock.listener.ts:13-16 | of two status facts about the same product, the later one decides its status |
| ProductListeners.AnnouncedCreationMakesAvailable | product-service/src/rabbitmq/listeners/stock.created.listener.ts:8-16 | the `stock.created` fact that the inventory service announces makes the product AVAILABLE |
| ProductListeners.SetStatusOnFact | product-service/src/rabbitmq/listeners/stock.created.listener.ts:4-22 | the table becomes `AfterStatusFact`; ignored exactly for other keys, swallowed for a non-JSON body, applied exactly when the product exists; a failure changes nothing |
| ProductListeners.StockCreationHandler | product-service/src/rabbitmq/listeners/stock.created.listener.ts:4-22 | `stock.created` sets AVAILABLE on the named product, and nothing else |
| ProductListeners.StockReplenishHandler | product-service/src/rabbitmq/listeners/stock.replenish.listener.ts:4-22 | `stock.replenish` sets AVAILABLE on the named product, whatever its status was |
| ProductListeners.OutOfStockHandler | product-service/src/rabbitmq/listeners/stock.out_of_stock.listener.ts:4-22 | `stock.out_of_stock` sets OUT_OF_STOCK on the named product |
| ProductListeners.DeletionFilter | product-service/src/rabbitmq/listeners/stock.deleted.listener.ts:11-15 | the delete's filter is the integral product id plus the seller id when one is given; an absent seller id drops that condition; a non-integral field makes the delete fail |
| ProductListeners.AfterStockDeleted | product-service/src/rabbitmq/listeners/stock.deleted.listener.ts:13-15 | the product the filter matches is removed; nothing else changes |
| ProductListeners.StockDeletionIdempotent | product-service/src/rabbitmq/listeners/stock.deleted.listener.ts:13-15 | a redelivered `stock.deleted` changes nothing more |
| ProductListeners.AnnouncedDeletionIgnoresSeller | product-service/src/rabbitmq/listeners/stock.deleted.listener.ts:12-15 | the announced `stock.deleted` carries no seller id, so it deletes the product whoever sells it |
| ProductListeners.NullSellerIdDeletesNothing | product-service/src/rabbitmq/listeners/stock.deleted.listener.ts:12-15 | a `null` seller id stays in the filter, which the database client refuses, so nothing is deleted |
| ProductListeners.StockDeletionHandler | product-service/src/rabbitmq/listeners/stock.deleted.listener.ts:4-22 | the table becomes `AfterStockDeleted`; applied exactly when the filter matches a product |
| SellerControllers.CreateProduct | product-service/src/controller/seller.controllers.ts:13-36 | the body is parsed before the role is checked (400, then 403, each changing nothing); the new product gets a fresh id, the caller as seller, status PENDING and the time `now`; 201 with its view |
| SellerControllers.Updated | product-service/src/controller/seller.controllers.ts:61-69 | an update sets name, description, price and images and keeps category, seller, status and creation time |
| SellerControllers.UpdateProduct | product-service/src/controller/seller.controllers.ts:41-76 | 403 for a non-seller, 400 for a bad body or a NaN id, 403 for a missing or foreign product, each changing nothing; else only that product is updated, with 200 |
| SellerControllers.DeleteProduct | product-service/src/controller/seller.controllers.ts:81-104 | the same role and ownership checks; exactly the caller's product is removed, with 204 |
| SellerControllers.Insert | product-service/src/controller/seller.controllers.ts:120 | inserting adds exactly that entry: the result is a permutation of the list plus it |
| SellerControllers.SortNewestFirst | product-service/src/controller/seller.controllers.ts:120 | the sort is a permutation of its input |
| SellerControllers.InsertKeepsNewestFirst | product-service/src/controller/seller.controllers.ts:120 | inserting into a list ordered by `createdAt` descending keeps it ordered |
| SellerControllers.InsertKeepsDistinctIds | product-service/src/controller/seller.controllers.ts:118-121 | inserting an entry with a new id keeps the ids distinct |
| SellerControllers.SortIsNewestFirst | product-service/src/controller/seller.controllers.ts:118-121 | the sorted list is newest first, and distinct ids stay distinct |
| SellerControllers.OwnedBetween | product-service/src/controller/seller.controllers.ts:118-119 | holds exactly the views of the seller's products with ids in the range, each id once |
| SellerControllers.SellerProducts | product-service/src/controller/seller.controllers.ts:118-127 | holds exactly the views of the seller's products, every one of them, newest first, each id once |
| SellerControllers.GetSellerProducts | product-service/src/controller/seller.controllers.ts:109-133 | 403 exactly for a non-seller; otherwise 200 with exactly the caller's products, newest first, each once |
| RabbitMQ.RabbitMQHelper.constructor | rabbitmq-helper/src/index.ts:4-10 | no connection and no channel, the given URI, no calls made |
| RabbitMQ.RabbitMQHelper.Connect | rabbitmq-helper/src/index.ts:12-17 | a no-op when both handles are set; otherwise the connection is replaced first, so a refused channel leaves the new connection and the old channel |
| RabbitMQ.RabbitMQHelper.AssertExchange | rabbitmq-helper/src/index.ts:19-27 | without a channel it throws "Channel not initialized. Call connect() first." and calls nothing; otherwise it asserts a durable exchange whose type defaults to topic |
| RabbitMQ.RabbitMQHelper.AssertQueue | rabbitmq-helper/src/index.ts:29-32 | the guard, then a durable queue |
| RabbitMQ.RabbitMQHelper.BindQueue | rabbitmq-helper/src/index.ts:34-37 | the guard, then exactly one binding call |
| RabbitMQ.RabbitMQHelper.Publish | rabbitmq-helper/src/index.ts:39-44 | the guard, then a durable topic exchange assertion followed by the publish, in that order |
| RabbitMQ.RabbitMQHelper.Consume | rabbitmq-helper/src/index.ts:46-59 | the guard, then a consumer with manual acknowledgement bound to the current channel |
| RabbitMQ.RabbitMQHelper.OnMessage | rabbitmq-helper/src/index.ts:48-57 | a null delivery does nothing; a handler that returns gives one ack, a handler that throws one nack with requeue, on the captured channel; every delivery is settled exactly once and no other is touched |
| RabbitMQ.RabbitMQHelper.Close | rabbitmq-helper/src/index.ts:61-73 | closes the channel and then the connection, each only when set, and forgets both |
| RabbitMQ.Settled | rabbitmq-helper/src/index.ts:49-57 | counts the acks and nacks of a delivery; zero exactly when the log has none for it |
| RabbitMQ.SettledAppend | rabbitmq-helper/src/index.ts:52-55 | appending one ack or nack settles its delivery once more and no other |
| AuthControllers.Hash | auth-service/src/controller/auth-controllers.ts:24 | the hash keeps its cost and at most the first 72 characters of the password |
| AuthControllers.Active | auth-service/src/controller/auth-controllers.ts:60-65 | exactly the user's sessions that have not expired at `now` |
| AuthControllers.ActiveAfterInsert | auth-service/src/controller/auth-controllers.ts:86-94 | a new unexpired session of the user adds one to their active sessions; others are unaffected |
| AuthControllers.ActiveAfterRemove | auth-service/src/controller/session-controllers.ts:31 | deleting a session removes it, and only it, from the active count |
| AuthControllers.AuthStore.DeleteSession | auth-service/src/controller/auth-controllers.ts:126-128 | exactly that session is deleted and the store stays valid |
| AuthControllers.AuthStore.CreateSession | auth-service/src/controller/auth-controllers.ts:86-94 | the session is stored under a fresh id; tokens stay unique |
| AuthControllers.AuthStore.Register | auth-service/src/controller/auth-controllers.ts:10-38 | 400 unless every field is given, 500 for a non-string email, 409 for a taken email, 500 for a non-string password, name or role, each changing nothing; otherwise one user is stored with the bcrypt hash, never the password, and the password matches it; emails stay unique |
| AuthControllers.AuthStore.Login | auth-service/src/controller/auth-controllers.ts:40-107 | 401 for missing fields, an unknown email or a wrong password; 500 for a non-string email, or a non-string password of a known email; 403 at three active sessions; 401, 403 and 500 exactly when nothing changes; otherwise one session with the new token, so the active count grows by one and stays at most three |
| AuthControllers.AuthStore.Logout | auth-service/src/controller/auth-controllers.ts:109-135 | 400 without a token, 500 for a non-string token, 404 when no session carries it; otherwise exactly that session is deleted |
| AuthControllers.AuthStore.LogoutAll | auth-service/src/controller/auth-controllers.ts:137-155 | 400 for a falsy user id, 500 for one that is not an integer; otherwise exactly that user's sessions are deleted |
| AuthControllers.LongPasswordsShareHash | auth-service/src/controller/auth-controllers.ts:24 | two passwords that agree on the first 72 characters match the same hash |
| AuthControllers.HashIdentifiesShortPasswords | auth-service/src/controller/auth-controllers.ts:54 | a password matches its own hash; among passwords of at most 72 characters, only it does |
| SessionControllers.EarliestExists | auth-service/src/controller/session-controllers.ts:32-41 | a non-empty set of sessions has an earliest-created one, which is the one the ascending `findMany` puts first |
| SessionControllers.PresentedSession | auth-service/src/controller/session-controllers.ts:18-24 | the unexpired session carrying the presented token |
| SessionControllers.Rotate | auth-service/src/controller/session-controllers.ts:31-71 | the presented session is deleted and its token no longer works; with three or more active sessions left the earliest is evicted; one session with the new token is created; the active count never grows |
| SessionControllers.RefreshToken | auth-service/src/controller/session-controllers.ts:10-76 | 400, 500 for a non-string token, and 401 change nothing. Otherwise the presented session is deleted and its token no longer works. With three or more active sessions left, the earliest is evicted. One session with the new token is created. The user's active count never grows, so at most three stays at most three. |

## Left out

- Schema defaults of the database tables are not part of this model. Product
  ids come from a counter starting at 1, a new product's status is PENDING,
  an inventory row's `reserved` starts at 0, and a session's `createdAt` is
  the request time.
- The 32-bit limits of the database's `Int` columns are not modelled: ids and
  amounts are unbounded integers.
- JSON serialisation of bodies and replies: a body field is a number, absent
  (`undefined`), or some other value, `null` included, of which only
  truthiness matters; a field of the auth controllers is absent, a string,
  or some other value, of which only truthiness matters. Messages are the
  values that would be serialised.
- bcrypt is modelled by what decides `compare`: the cost and the first 72
  characters. The random salt, byte lengths versus character lengths, and
  the hash text are not modelled.
- Signing access tokens (jwt) is not modelled: the reply carries the claims.
- Generating refresh tokens (uuid) is not modelled: the new token is a
  parameter that no session holds yet (a requirement of `Login` and
  `RefreshToken`).
- The clock is one value `now` per request.
- The retries inside `publishWithRetry` are not part of this model: only
  whether publishing finally succeeded is.
- The URL validator of `images` and JavaScript's string-to-number coercion
  are inputs. An image says whether it is a URL; a price parameter says what
  `Number` made of it.
- The services' wiring is not part of this model: the gateway, the routes,
  the authentication middleware, the buyer controllers and the consumer
  registration.
- A product's `updatedAt` column is not modelled.
- Broker errors after a call is made are not modelled. This covers an
  ack on a closed channel and a failure of `channel.close` or
  `connection.close`. `Connect` models only whether each library call threw.
- The error text a library puts in a 400 or 500 reply is not modelled. The
  reply says which library failed, not what it said.
- The order in which the database returns sessions or products that were
  created at the same instant is unspecified. `SessionControllers.Earliest`
  accepts any earliest session, and the seller listing puts entries of equal
  age in descending id order (the reverse of the table's id order).
- Concurrency is not modelled: each controller's transaction and each
  consumer run is one method call. Row locking (`FOR UPDATE`) therefore needs
  no model.
- Every consumer catches every error and returns normally. In the helper's
  callback this means the message is acknowledged, never nacked, so a failed
  handling is never redelivered (`Handled.Swallowed`).
- `logoutAll` takes the user id from the request body and checks no
  credential. `register` stores whatever role it is given. Both are modelled
  as written.
- The system's design has the ledger announce `stock.out_of_stock` when a
  reservation exhausts a row and `stock.replenish` when a replenishment
  restores it. It also names a `release` operation. The controllers as
  written publish nothing and have no release. The model follows the code,
  so no ledger operation announces a fact.

## Findings

| source | as written | input that shows it | evidently intended | confidence | as-written member | corrected member |
|---|---|---|---|---|---|---|
| inventory-service/src/controllers/inventory.controllers.ts:85-92 | `sellStock` decrements only `reserved`, so the sold units become available again | a row of 1 unit: reserve 1, sell 1, reserve 1, sell 1 sells 2 units with nothing replenished | a sale decrements both `quantity` and `reserved`, so availability is unchanged and stock is conserved | not executed | LedgerRuns.AsWrittenOversells | LedgerRuns.IntendedNeverOversells |

`InventoryControllers.Ledger.SellStock` models the controller as written and
uses `InventoryControllers.SellRow`. `InventoryControllers.SellRowIntended` is
the corrected sale. `LedgerRuns.IntendedRunConservesStock` and
`LedgerRuns.IntendedNeverOversells` are proved about it.
