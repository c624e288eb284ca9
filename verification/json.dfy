/**
  A JSON document after decoding. Go's `encoding/json` turns an object into a
  `map[string]interface{}`, a string into `string`, `true` and `false` into
  `bool`, a number into `float64` and `null` into a nil interface. A later
  duplicate key overwrites an earlier one, so the map holds the last value
  of each key; the overwritten values are gone, except that a number in one
  of them that overflowed a float64 still makes the decode fail.
*/
module Json {

  datatype Value =
    | Null
    | Bool(b: bool)
      /**
        A number literal, and whether `strconv.ParseFloat(literal, 64)` reports
        a range error for it (a magnitude beyond the largest float64, such as
        `1e400`). The decimal-to-binary rounding itself is not modelled.
      */
    | Number(literal: string, overflows: bool)
    | String(str: string)
    | Array(elements: seq<Value>)
      /**
        An object: the last value of each key, and whether some value that a
        later duplicate key overwrote held a number beyond float64 range.
      */
    | Object(members: map<string, Value>, shadowedOverflow: bool)

  /**
    Every number anywhere in the value converts to a float64. When one does
    not, decoding into an `interface{}` records an `UnmarshalTypeError`, keeps
    going, and `json.Unmarshal` returns that error at the end.
  */
  predicate NumbersFit(v: Value) {
    match v
    case Number(_, overflows) => !overflows
    case Array(elements) => forall i :: 0 <= i < |elements| ==> NumbersFit(elements[i])
    case Object(members, shadowedOverflow) =>
      !shadowedOverflow && forall k :: k in members ==> NumbersFit(members[k])
    case _ => true
  }
}
