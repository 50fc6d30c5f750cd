/** The inventory item schema: the validator every ledger row read back from the
    database goes through before the controllers and listeners use it. */
module InventoryItemDto {
  import opened Values

  /** Largest absolute time value of an ECMAScript `Date`, in milliseconds. */
  const MaxTimeValue := 8_640_000_000_000_000

  /** An input to `z.coerce.date()`: undefined, null, a number of milliseconds
      since the epoch, or a value `new Date` cannot read (an unparseable string). */
  datatype DateInput = Undefined | Null | Millis(ms: int) | Unreadable

  /** The object handed to the schema. */
  datatype RawItem = RawItem(
    productId: Value, quantity: Value, reserved: Value,
    restockAt: DateInput, createdAt: DateInput, updatedAt: DateInput)

  /** The parsed item. Dates are kept as instants; their ISO-8601 text is only
      formatting. */
  datatype Item = Item(
    productId: int, quantity: int, reserved: int,
    restockAt: Option<int>, createdAt: int, updatedAt: int)

  /** The rule `z.number().int().nonnegative()` checks. */
  predicate NonNegativeInteger(v: Value)
  {
    v.Number? && IsInteger(v.x) && v.x >= 0.0
  }

  /** The inputs for which `new Date(input)` is a valid date. */
  predicate ValidDate(d: DateInput)
  {
    d.Null? || (d.Millis? && -MaxTimeValue <= d.ms <= MaxTimeValue)
  }

  function NonNegativeInt(v: Value): (r: Option<int>)
    ensures r.Some? <==> NonNegativeInteger(v)
    ensures r.Some? ==> 0 <= r.value && r.value as real == v.x
  {
    match AsInt(v)
    case Some(n) => if n >= 0 then Some(n) else None
    case None => None
  }

  /** `z.coerce.date()`: `new Date(input)`, refused when that is an invalid date.
      `new Date(null)` is the epoch, `new Date(undefined)` is invalid. */
  function CoerceDate(d: DateInput): (r: Option<int>)
    ensures r.Some? <==> ValidDate(d)
    ensures d.Null? ==> r == Some(0)
    ensures d.Millis? && r.Some? ==> r.value == d.ms
  {
    match d
    case Undefined => None
    case Null => Some(0)
    case Millis(ms) => if -MaxTimeValue <= ms <= MaxTimeValue then Some(ms) else None
    case Unreadable => None
  }

  /** `z.coerce.date().nullable().optional()` followed by
      `date?.toISOString() ?? null`. */
  function CoerceRestockAt(d: DateInput): (r: Option<Option<int>>)
    ensures d.Undefined? || d.Null? ==> r == Some(None)
    ensures !d.Undefined? && !d.Null? ==> (r.Some? <==> ValidDate(d))
    ensures d.Millis? && r.Some? ==> r.value == Some(d.ms)
  {
    if d.Undefined? || d.Null? then Some(None)
    else match CoerceDate(d)
      case Some(t) => Some(Some(t))
      case None => None
  }

  /** `inventoryItemSchema.parse`, with `None` for a thrown validation error. */
  function Parse(raw: RawItem): (r: Option<Item>)
    ensures r.Some? <==>
      && NonNegativeInteger(raw.productId)
      && NonNegativeInteger(raw.quantity)
      && NonNegativeInteger(raw.reserved)
      && (raw.restockAt.Undefined? || ValidDate(raw.restockAt))
      && ValidDate(raw.createdAt)
      && ValidDate(raw.updatedAt)
    ensures r.Some? ==>
      && r.value.productId as real == raw.productId.x
      && r.value.quantity as real == raw.quantity.x
      && r.value.reserved as real == raw.reserved.x
      && 0 <= r.value.productId && 0 <= r.value.quantity && 0 <= r.value.reserved
    ensures r.Some? ==>
      Some(r.value.createdAt) == CoerceDate(raw.createdAt) && Some(r.value.updatedAt) == CoerceDate(raw.updatedAt)
    ensures r.Some? && (raw.restockAt.Undefined? || raw.restockAt.Null?) ==> r.value.restockAt == None
    ensures r.Some? && raw.restockAt.Millis? ==> r.value.restockAt == Some(raw.restockAt.ms)
  {
    match (NonNegativeInt(raw.productId), NonNegativeInt(raw.quantity), NonNegativeInt(raw.reserved))
    case (Some(p), Some(q), Some(s)) =>
      (match (CoerceRestockAt(raw.restockAt), CoerceDate(raw.createdAt), CoerceDate(raw.updatedAt))
       case (Some(restock), Some(created), Some(updated)) => Some(Item(p, q, s, restock, created, updated))
       case _ => None)
    case _ => None
  }

  /** A ledger row as the database hands it back: integer columns, no restock
      date, and the two timestamps the database maintains. */
  function Stored(productId: int, quantity: int, reserved: int, createdAt: int, updatedAt: int): RawItem
  {
    RawItem(FromInt(productId), FromInt(quantity), FromInt(reserved), Null, Millis(createdAt), Millis(updatedAt))
  }

  /** What the schema demands of a stored row's integer columns. */
  predicate AcceptsStored(productId: int, quantity: int, reserved: int)
  {
    0 <= productId && 0 <= quantity && 0 <= reserved
  }

  /** A stored row passes the schema exactly when its three integer columns are
      non-negative: the timestamps the database writes are always valid dates. */
  lemma StoredRowVerdict(productId: int, quantity: int, reserved: int, createdAt: int, updatedAt: int)
    requires -MaxTimeValue <= createdAt <= MaxTimeValue && -MaxTimeValue <= updatedAt <= MaxTimeValue
    ensures Parse(Stored(productId, quantity, reserved, createdAt, updatedAt)).Some?
            <==> AcceptsStored(productId, quantity, reserved)
    ensures AcceptsStored(productId, quantity, reserved) ==>
              Parse(Stored(productId, quantity, reserved, createdAt, updatedAt))
              == Some(Item(productId, quantity, reserved, None, createdAt, updatedAt))
  {
  }

  /** The schema does not relate `reserved` to `quantity`: an item reserving more
      than it holds is accepted. Keeping `reserved <= quantity` is left to the
      controllers. */
  lemma ReservedAboveQuantityAccepted()
    ensures Parse(RawItem(Number(1.0), Number(2.0), Number(5.0), Undefined, Null, Millis(0))).Some?
  {
  }

  /** `createdAt` and `updatedAt` are required: an item without either is refused. */
  lemma TimestampsRequired(raw: RawItem)
    requires raw.createdAt.Undefined? || raw.updatedAt.Undefined?
    ensures Parse(raw).None?
  {
  }
}
