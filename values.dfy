/** Values that cross the services' boundaries: fields of JSON request bodies and
    fact payloads, and the result of `parseInt` on a path parameter. */
module Values {

  datatype Option<+T> = None | Some(value: T)

  /** A field read out of a parsed JSON body: absent (`undefined`), a JSON number,
      or any other JSON value, `null` included, of which only its JavaScript
      truthiness matters. */
  datatype Value = Missing | Number(x: real) | NotNumber(truthy: bool)

  /** JSON `null`: present, not a number, and falsy. */
  const JsonNull: Value := NotNumber(false)

  /** JavaScript truthiness of a field, as tested by `!field`. */
  predicate Truthy(v: Value)
  {
    match v
    case Missing => false
    case Number(x) => x != 0.0
    case NotNumber(t) => t
  }

  predicate IsInteger(x: real)
  {
    x.Floor as real == x
  }

  /** What the database client accepts for an integer column: an integral JSON
      number. Anything else makes the query fail validation before it runs. */
  function AsInt(v: Value): (r: Option<int>)
    ensures r.Some? <==> v.Number? && IsInteger(v.x)
    ensures r.Some? ==> r.value as real == v.x
  {
    if v.Number? && IsInteger(v.x) then Some(v.x.Floor) else None
  }

  /** The JSON number that carries the integer `n`. */
  function FromInt(n: int): (v: Value)
    ensures AsInt(v) == Some(n)
    ensures Truthy(v) <==> n != 0
  {
    Number(n as real)
  }

  /** The result of `parseInt` on a path parameter: NaN or an integer. */
  datatype ParsedInt = NaN | Int(n: int)

  /** JavaScript truthiness of a parsed integer: NaN and 0 are falsy. */
  predicate TruthyInt(p: ParsedInt)
  {
    p.Int? && p.n != 0
  }
}
