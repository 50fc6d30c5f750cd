/** The product search query schema: every field optional, prices coerced to
    numbers and at least zero, and two enumerations for the sort. */
module QueryDto {
  import opened Values

  /** A query-string parameter: absent, a single string, or anything else the
      query parser produces (a repeated key, a nested object). */
  datatype Param = Absent | Text(s: string) | Other

  /** The outcome of `Number(...)` on a present price parameter. How a string
      becomes a number is not part of this model. */
  datatype Coerced = NotANumber | Num(x: real)

  datatype PriceParam = NoPrice | Price(n: Coerced)

  datatype SortKey = ByPrice | ByCreatedAt | ByName
  datatype Order = Asc | Desc

  datatype RawQuery = RawQuery(
    search: Param, category: Param, minPrice: PriceParam, maxPrice: PriceParam, sortBy: Param, order: Param)

  datatype Query = Query(
    search: Option<string>, category: Option<string>, minPrice: Option<real>, maxPrice: Option<real>,
    sortBy: Option<SortKey>, order: Option<Order>)

  /** `z.string().optional()` */
  function OptionalText(p: Param): (r: Option<Option<string>>)
    ensures r.Some? <==> !p.Other?
    ensures r == Some(None) <==> p.Absent?
    ensures p.Text? ==> r == Some(Some(p.s))
  {
    match p
    case Absent => Some(None)
    case Text(s) => Some(Some(s))
    case Other => None
  }

  /** `z.coerce.number().min(0).optional()`: NaN is refused, and so is a
      negative number. */
  function OptionalPrice(p: PriceParam): (r: Option<Option<real>>)
    ensures r.Some? <==> p.NoPrice? || (p.n.Num? && p.n.x >= 0.0)
    ensures r == Some(None) <==> p.NoPrice?
    ensures r.Some? && r.value.Some? ==> p.Price? && p.n == Num(r.value.value) && r.value.value >= 0.0
  {
    match p
    case NoPrice => Some(None)
    case Price(Num(x)) => if x >= 0.0 then Some(Some(x)) else None
    case Price(NotANumber) => None
  }

  /** `z.enum(['price', 'createdAt', 'name']).optional()` */
  function OptionalSortKey(p: Param): (r: Option<Option<SortKey>>)
    ensures r.Some? <==> p.Absent? || (p.Text? && p.s in {"price", "createdAt", "name"})
    ensures r == Some(None) <==> p.Absent?
    ensures r == Some(Some(ByPrice)) <==> p == Text("price")
    ensures r == Some(Some(ByCreatedAt)) <==> p == Text("createdAt")
    ensures r == Some(Some(ByName)) <==> p == Text("name")
  {
    match p
    case Absent => Some(None)
    case Text(s) =>
      if s == "price" then Some(Some(ByPrice))
      else if s == "createdAt" then Some(Some(ByCreatedAt))
      else if s == "name" then Some(Some(ByName))
      else None
    case Other => None
  }

  /** `z.enum(['asc', 'desc']).optional()` */
  function OptionalOrder(p: Param): (r: Option<Option<Order>>)
    ensures r.Some? <==> p.Absent? || (p.Text? && p.s in {"asc", "desc"})
    ensures r == Some(None) <==> p.Absent?
    ensures r == Some(Some(Asc)) <==> p == Text("asc")
    ensures r == Some(Some(Desc)) <==> p == Text("desc")
  {
    match p
    case Absent => Some(None)
    case Text(s) =>
      if s == "asc" then Some(Some(Asc))
      else if s == "desc" then Some(Some(Desc))
      else None
    case Other => None
  }

  /** `querySchema.parse`, with `None` for a thrown validation error. */
  function Parse(raw: RawQuery): (r: Option<Query>)
    ensures r.Some? <==>
      OptionalText(raw.search).Some? && OptionalText(raw.category).Some?
      && OptionalPrice(raw.minPrice).Some? && OptionalPrice(raw.maxPrice).Some?
      && OptionalSortKey(raw.sortBy).Some? && OptionalOrder(raw.order).Some?
    ensures r.Some? ==>
      && r.value.search == OptionalText(raw.search).value
      && r.value.category == OptionalText(raw.category).value
      && r.value.minPrice == OptionalPrice(raw.minPrice).value
      && r.value.maxPrice == OptionalPrice(raw.maxPrice).value
      && r.value.sortBy == OptionalSortKey(raw.sortBy).value
      && r.value.order == OptionalOrder(raw.order).value
  {
    var search, category := OptionalText(raw.search), OptionalText(raw.category);
    var minPrice, maxPrice := OptionalPrice(raw.minPrice), OptionalPrice(raw.maxPrice);
    var sortBy, order := OptionalSortKey(raw.sortBy), OptionalOrder(raw.order);
    if search.Some? && category.Some? && minPrice.Some? && maxPrice.Some? && sortBy.Some? && order.Some? then
      Some(Query(search.value, category.value, minPrice.value, maxPrice.value, sortBy.value, order.value))
    else None
  }

  /** Every field is optional: the empty query is accepted and parses to a query
      with no field set. */
  lemma EmptyQueryAccepted()
    ensures Parse(RawQuery(Absent, Absent, NoPrice, NoPrice, Absent, Absent))
         == Some(Query(None, None, None, None, None, None))
  {
  }

  /** The schema does not relate the two bounds: a minimum above the maximum is
      accepted as it is. */
  lemma MinAboveMaxAccepted(lo: real, hi: real)
    requires 0.0 <= hi < lo
    ensures var r := Parse(RawQuery(Absent, Absent, Price(Num(lo)), Price(Num(hi)), Absent, Absent));
            r.Some? && r.value.minPrice == Some(lo) && r.value.maxPrice == Some(hi)
  {
  }
}
