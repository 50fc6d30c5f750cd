/** The stock entry request schema: `{ productId, quantity }`, both non-negative
    integers. */
module StockEntryRequestDto {
  import opened Values

  datatype RawRequest = RawRequest(productId: Value, quantity: Value)

  datatype StockEntryRequest = StockEntryRequest(productId: int, quantity: int)

  /** Why the schema refuses a request; the texts are the schema's own. */
  datatype Issue = InvalidProductId | QuantityNotPositive | NotAnInteger

  const InvalidProductIdText := "Invalid product ID format"
  const QuantityText := "Quantity must be a positive integer"

  /** `z.number().int().nonnegative({ message })` for one field. */
  function Field(v: Value, negative: Issue): (r: Result)
    ensures r.Accepted? <==> v.Number? && IsInteger(v.x) && v.x >= 0.0
    ensures r.Accepted? ==> r.n >= 0 && r.n as real == v.x
    ensures r.Refused? && v.Number? && IsInteger(v.x) ==> r.issue == negative
  {
    match AsInt(v)
    case None => Refused(NotAnInteger)
    case Some(n) => if n >= 0 then Accepted(n) else Refused(negative)
  }

  datatype Result = Accepted(n: int) | Refused(issue: Issue)

  /** `stockEntryRequestSchema.parse`, with the first issue on refusal. A quantity
      of zero is accepted, whatever the message for a negative one says. */
  function Parse(raw: RawRequest): (r: Option<StockEntryRequest>)
    ensures r.Some? <==>
      && raw.productId.Number? && IsInteger(raw.productId.x) && raw.productId.x >= 0.0
      && raw.quantity.Number? && IsInteger(raw.quantity.x) && raw.quantity.x >= 0.0
    ensures r.Some? ==>
      r.value.productId as real == raw.productId.x && r.value.quantity as real == raw.quantity.x
  {
    match (Field(raw.productId, InvalidProductId), Field(raw.quantity, QuantityNotPositive))
    case (Accepted(p), Accepted(q)) => Some(StockEntryRequest(p, q))
    case _ => None
  }

  /** A request for zero units passes. */
  lemma ZeroQuantityAccepted(productId: nat)
    ensures Parse(RawRequest(FromInt(productId), Number(0.0))) == Some(StockEntryRequest(productId, 0))
  {
  }
}
