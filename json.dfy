/** The JavaScript values `JSON.parse` can produce, with the JavaScript
    semantics the server applies to them: truthiness, property reads, the
    `||` operator, `typeof x === 'number'`, `Array.isArray` and `String(x)`. */
module Json {
  import opened Wrappers
  import opened JsStrings

  /** A parsed JSON value.  A number is kept as an opaque real (no arithmetic
      is done on it); an object is a map from property names to values
      (`JSON.parse` keeps the last of duplicated keys). */
  datatype Json =
    | JNull
    | JBool(b: bool)
    | JNumber(n: real)
    | JString(s: string)
    | JArray(elems: seq<Json>)
    | JObject(fields: map<string, Json>)

  /** A JavaScript value as the server reads it out of a parsed value:
      `None` is `undefined` (a property that is not there). */
  type Value = Option<Json>

  /** JavaScript truthiness of a JSON value: `null`, `false`, `0` and `""`
      are falsy; every array and every object (even `[]` and `{}`) is
      truthy. */
  predicate Truthy(j: Json)
    ensures Truthy(j) <==>
      j != JNull && j != JBool(false) && j != JNumber(0.0) && j != JString("")
  {
    match j
    case JNull => false
    case JBool(b) => b
    case JNumber(n) => n != 0.0
    case JString(s) => s != ""
    case JArray(_) => true
    case JObject(_) => true
  }

  /** Truthiness of a value that may be `undefined` (which is falsy). */
  predicate TruthyValue(v: Value) {
    v.Some? && Truthy(v.value)
  }

  /** The empty object literal `{}`. */
  const EmptyObject: Json := JObject(map[])

  /** The empty array literal `[]`. */
  const EmptyArray: Json := JArray([])

  /** The property read `j.key` on a value that is not null or undefined:
      an own property of an object, and `undefined` otherwise (strings,
      numbers, booleans and arrays have no property with the names the
      server reads). */
  function Get(j: Json, key: string): (v: Value)
    ensures v.Some? <==> j.JObject? && key in j.fields
    ensures v.Some? ==> v.value == j.fields[key]
  {
    if j.JObject? && key in j.fields then Some(j.fields[key]) else None
  }

  /** `v || fallback`: `v` when it is truthy, `fallback` otherwise. */
  function Or(v: Value, fallback: Json): (r: Json)
    ensures TruthyValue(v) ==> Some(r) == v
    ensures !TruthyValue(v) ==> r == fallback
    ensures Truthy(r) || r == fallback
  {
    if TruthyValue(v) then v.value else fallback
  }

  /** The value found by following the property names `keys` from `j`, or
      `undefined` once a step reaches a missing property or a value that is
      not an object. */
  function Path(j: Json, keys: seq<string>): Value
    decreases |keys|
  {
    if |keys| == 0 then Some(j)
    else match Get(j, keys[0])
      case None => None
      case Some(child) => Path(child, keys[1..])
  }

  /** The `typeof` operator on a value read out of a parsed value. */
  function TypeOf(v: Value): string {
    match v
    case None => "undefined"
    case Some(JNull) => "object"
    case Some(JBool(_)) => "boolean"
    case Some(JNumber(_)) => "number"
    case Some(JString(_)) => "string"
    case Some(JArray(_)) => "object"
    case Some(JObject(_)) => "object"
  }

  /** `typeof v === 'number'`: a number, and nothing else (not a numeric
      string). */
  predicate IsNumber(v: Value)
    ensures IsNumber(v) <==> TypeOf(v) == "number"
  {
    v.Some? && v.value.JNumber?
  }

  /** The message of the TypeError that `String(o)` throws when converting
      `o` to a primitive finds no callable `toString` or `valueOf`. */
  const ToPrimitiveError: string := "Cannot convert object to primitive value"

  /** The values `String(j)` throws on.  An object with an own `toString`
      property: `JSON.parse` can only make that property a plain value,
      which is not callable, and the inherited `valueOf` returns the object
      itself, so no primitive is found.  An array holding such a value, at
      any depth of nested arrays, because `join` converts every element. */
  ghost predicate Uncoercible(j: Json)
    decreases j
  {
    match j
    case JObject(fields) => "toString" in fields
    case JArray(elems) => exists i :: 0 <= i < |elems| && Uncoercible(elems[i])
    case _ => false
  }

  /** `String(j)`, throwing exactly on the uncoercible values.  `numStr` is
      JavaScript's Number-to-String conversion, which the model takes as
      given.  An array is converted as `elems.join(',')`, an object without
      an own `toString` to "[object Object]". */
  function ToStr(j: Json, numStr: real -> string): (r: Result<string>)
    ensures r.Failure? <==> Uncoercible(j)
    ensures r.Failure? ==> r.error == ToPrimitiveError
    ensures j.JNull? ==> r == Success("null")
    ensures j.JBool? ==> r == Success(if j.b then "true" else "false")
    ensures j.JNumber? ==> r == Success(numStr(j.n))
    ensures j.JString? ==> r == Success(j.s)
    ensures j.JObject? && "toString" !in j.fields ==> r == Success("[object Object]")
    ensures j.JArray? && r.Success? ==> r.value == Join(ElemStrs(j.elems, numStr).value, ",")
    decreases j, 0
  {
    match j
    case JNull => Success("null")
    case JBool(b) => Success(if b then "true" else "false")
    case JNumber(n) => Success(numStr(n))
    case JString(s) => Success(s)
    case JArray(elems) =>
      (match ElemStrs(elems, numStr)
       case Failure(e) => Failure(e)
       case Success(strs) => Success(Join(strs, ",")))
    case JObject(fields) =>
      if "toString" in fields then Failure(ToPrimitiveError) else Success("[object Object]")
  }

  /** The strings `Array.prototype.join` puts between the separators, one
      per element; the conversion throws as soon as one element does. */
  function ElemStrs(elems: seq<Json>, numStr: real -> string): (r: Result<seq<string>>)
    ensures r.Failure? <==> exists i :: 0 <= i < |elems| && Uncoercible(elems[i])
    ensures r.Failure? ==> r.error == ToPrimitiveError
    ensures r.Success? ==> |r.value| == |elems|
    ensures r.Success? ==>
      forall i :: 0 <= i < |elems| ==> ElemStr(elems[i], numStr) == Success(r.value[i])
    decreases elems, 2
  {
    if |elems| == 0 then Success([])
    else
      match ElemStr(elems[0], numStr)
      case Failure(e) => Failure(e)
      case Success(h) =>
        match ElemStrs(elems[1..], numStr)
        case Failure(e) => Failure(e)
        case Success(t) =>
          assert forall i :: 1 <= i < |elems| ==> elems[i] == elems[1..][i - 1];
          Success([h] + t)
  }

  /** One element as `join` converts it: the empty string for `null`,
      `String(e)` for any other. */
  function ElemStr(e: Json, numStr: real -> string): (r: Result<string>)
    ensures r.Failure? <==> Uncoercible(e)
    ensures r.Failure? ==> r.error == ToPrimitiveError
    ensures e.JNull? ==> r == Success("")
    ensures e.JString? ==> r == Success(e.s)
    ensures !e.JNull? ==> r == ToStr(e, numStr)
    decreases e, 1
  {
    if e.JNull? then Success("") else ToStr(e, numStr)
  }
}
