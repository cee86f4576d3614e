/**
 * The JavaScript values the front end receives from JSON responses, and the
 * few language operations its decoders apply to them: truthiness, property
 * access, the `??` nullish test and strict equality.
 */
module JsValues {

  /** A JavaScript number: finite, NaN or one of the two infinities. */
  datatype Number = Finite(value: real) | NaN | PosInf | NegInf {
    /** `Number.isFinite` */
    predicate IsFinite() { Finite? }
  }

  /** `Number.parseFloat`, left abstract: every operation that parses takes one. */
  type Parser = string -> Number

  datatype Value =
    | Undefined
    | Null
    | Bool(b: bool)
    | Num(n: Number)
    | Str(s: string)
    | Arr(elems: seq<Value>)
    | Obj(fields: map<string, Value>)

  /** `!!v`: false, 0, NaN, "", null and undefined are the falsy values. */
  predicate Truthy(v: Value) {
    match v
    case Undefined => false
    case Null => false
    case Bool(b) => b
    case Num(n) => !(n.NaN? || n == Finite(0.0))
    case Str(s) => s != ""
    case Arr(_) => true
    case Obj(_) => true
  }

  /** `v === null || v === undefined`, the values `??` falls through. */
  predicate IsNullish(v: Value) {
    v.Undefined? || v.Null?
  }

  /** `typeof v === 'object'` (true of null and of arrays as well). */
  predicate IsObjectType(v: Value) {
    v.Null? || v.Arr? || v.Obj?
  }

  /** `key in v` for an object value. */
  predicate Has(v: Value, key: string) {
    v.Obj? && key in v.fields
  }

  /**
   * `v[key]` for a value that is neither null nor undefined: an object's own
   * property, and `undefined` for a missing key or a primitive.
   */
  function Get(v: Value, key: string): (r: Value)
    ensures Has(v, key) ==> r == v.fields[key]
    ensures !Has(v, key) ==> r == Undefined
  {
    if v.Obj? && key in v.fields then v.fields[key] else Undefined
  }

  /** `a ?? b` */
  function Coalesce(a: Value, b: Value): (r: Value)
    ensures !IsNullish(a) ==> r == a
    ensures IsNullish(a) ==> r == b
  {
    if IsNullish(a) then b else a
  }

  /** `a || b` */
  function Or(a: Value, b: Value): (r: Value)
    ensures Truthy(a) ==> r == a
    ensures !Truthy(a) ==> r == b
  {
    if Truthy(a) then a else b
  }

  /**
   * `a === b`. NaN equals nothing; the two zeros are one `Finite(0.0)`.
   * Arrays and objects are compared by content, standing in for identity.
   */
  predicate StrictEquals(a: Value, b: Value) {
    match a
    case Num(x) => b.Num? && !x.NaN? && x == b.n
    case _ => a == b
  }

}
