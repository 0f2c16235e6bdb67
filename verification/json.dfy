/** The JSON values the upstream API sends, as serde_json presents them to a visitor. */
module Json {
  import opened Decimal

  /**
   * A JSON number as serde_json hands it to a visitor: an integer (`i64` or
   * `u64`), or a float, kept here as its literal text. A literal with a
   * fraction or an exponent is always a float; an integer literal is one too
   * when it is `-0` or lies outside the `i64`/`u64` range (see
   * `IntegerLiteral`).
   */
  datatype Number = Integer(i: SerdeInt) | Fractional(text: string)

  /** The smallest `i64` and the largest `u64`: the integers serde_json keeps as integers. */
  const I64_MIN: int := -0x8000_0000_0000_0000
  const U64_MAX: int := 0xFFFF_FFFF_FFFF_FFFF

  /** The integers serde_json can hand over as integers: every `i64` and every `u64`. */
  type SerdeInt = i: int | I64_MIN <= i <= U64_MAX

  /**
   * How serde_json reads an integer literal (digits with an optional minus
   * sign, no fraction, no exponent): a negative literal that does not fit an
   * `i64`, a positive one that does not fit a `u64`, and `-0` become floats.
   */
  function IntegerLiteral(negative: bool, magnitude: nat): (r: Number)
    ensures r.Integer? <==> (if negative then 0 < magnitude <= -I64_MIN else magnitude <= U64_MAX)
    ensures r.Integer? ==> r.i == (if negative then -(magnitude as int) else magnitude)
    ensures r.Fractional? ==> r.text == (if negative then "-" else "") + NatToString(magnitude)
  {
    if negative then
      if 0 < magnitude <= -I64_MIN then Integer(-(magnitude as int))
      else Fractional("-" + NatToString(magnitude))
    else
      if magnitude <= U64_MAX then Integer(magnitude)
      else Fractional(NatToString(magnitude))
  }

  datatype Value =
    | JNull
    | JBool(b: bool)
    | JNumber(n: Number)
    | JString(s: string)
    | JArray(items: seq<Value>)
    | JObject(members: seq<(string, Value)>)

  /** The kind of a value, as serde names it in an "invalid type" error. */
  datatype Shape = NullShape | BoolShape | NumberShape | StringShape | ArrayShape | ObjectShape

  function ShapeOf(v: Value): Shape
  {
    match v
    case JNull => NullShape
    case JBool(_) => BoolShape
    case JNumber(_) => NumberShape
    case JString(_) => StringShape
    case JArray(_) => ArrayShape
    case JObject(_) => ObjectShape
  }
}
