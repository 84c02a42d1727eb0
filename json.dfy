/** Decoded JSON values, as `json.loads` returns them. Objects are maps, so
    two objects with the same members in a different order are equal, and
    arrays are sequences, so order matters. Numbers are integers here.
    `PyEqual` is Python's `==` on these values, under which `true == 1`. */
module JsonValue {

  datatype Json =
    | JNull
    | JBool(b: bool)
    | JNumber(n: int)
    | JString(s: string)
    | JArray(items: seq<Json>)
    | JObject(members: map<string, Json>)

  /** Python truthiness of the decoded value (`bool(v)`). */
  predicate Truthy(v: Json)
  {
    match v
    case JNull => false
    case JBool(b) => b
    case JNumber(n) => n != 0
    case JString(s) => s != []
    case JArray(items) => items != []
    case JObject(members) => members != map[]
  }

  /** Booleans and numbers: Python's `bool` is a subclass of `int`. */
  predicate IsNumeric(v: Json)
  {
    v.JBool? || v.JNumber?
  }

  /** The integer a boolean or a number stands for: `True` is 1, `False` 0. */
  function NumberValue(v: Json): int
    requires IsNumeric(v)
  {
    if v.JNumber? then v.n else if v.b then 1 else 0
  }

  /** Python's `==` on two decoded values. */
  predicate PyEqual(x: Json, y: Json)
  {
    if IsNumeric(x) || IsNumeric(y) then
      IsNumeric(x) && IsNumeric(y) && NumberValue(x) == NumberValue(y)
    else
      match x
      case JNull => y.JNull?
      case JString(s) => y.JString? && y.s == s
      case JArray(xs) =>
        y.JArray? && |xs| == |y.items| && forall i :: 0 <= i < |xs| ==> PyEqual(xs[i], y.items[i])
      case JObject(xm) =>
        y.JObject? && xm.Keys == y.members.Keys && forall k :: k in xm ==> PyEqual(xm[k], y.members[k])
      case _ => false
  }

  /** Every decoded value equals itself (numbers here are integers, so
      there is no `NaN`). */
  lemma {:induction false} PyEqualReflexive(x: Json)
    ensures PyEqual(x, x)
  {
    match x
    case JArray(xs) =>
      forall i | 0 <= i < |xs| ensures PyEqual(xs[i], xs[i]) { PyEqualReflexive(xs[i]); }
    case JObject(xm) =>
      forall k | k in xm ensures PyEqual(xm[k], xm[k]) { PyEqualReflexive(xm[k]); }
    case _ =>
  }

  lemma {:induction false} PyEqualSymmetric(x: Json, y: Json)
    ensures PyEqual(x, y) == PyEqual(y, x)
  {
    if !IsNumeric(x) && !IsNumeric(y) && x.JArray? && y.JArray? {
      var xs, ys := x.items, y.items;
      if |xs| == |ys| {
        forall i | 0 <= i < |xs| ensures PyEqual(xs[i], ys[i]) == PyEqual(ys[i], xs[i]) { PyEqualSymmetric(xs[i], ys[i]); }
      }
    } else if !IsNumeric(x) && !IsNumeric(y) && x.JObject? && y.JObject? {
      var xm, ym := x.members, y.members;
      if xm.Keys == ym.Keys {
        forall k | k in xm ensures PyEqual(xm[k], ym[k]) == PyEqual(ym[k], xm[k]) { PyEqualSymmetric(xm[k], ym[k]); }
      }
    }
  }
}
