/**
 * JavaScript values as `JSON.parse` produces them (plus `undefined` for a
 * missing property), with the coercions the application applies to them:
 * truthiness and `||`, property reads, `Number(v)` and `String(v)`.
 */
module Values {
  import opened Common
  import opened Text
  import opened Numbers

  /**
   * Stands for the message of the TypeError the engine throws when a
   * property of `null` is read, a non-function is called or a value has no
   * primitive form; the exact wording is the engine's and is not modelled.
   */
  const TypeErrorMessage: string := "TypeError"

  /** A JSON number is a finite real here; `Num` never holds NaN or an infinity. */
  datatype JsValue =
    | Undefined
    | Null
    | Bool(b: bool)
    | Num(x: real)
    | Str(s: string)
    | Arr(items: seq<JsValue>)
    | Obj(fields: map<string, JsValue>)

  /** ECMAScript ToBoolean. */
  predicate Truthy(v: JsValue) {
    match v
    case Undefined => false
    case Null => false
    case Bool(b) => b
    case Num(x) => x != 0.0
    case Str(s) => s != []
    case Arr(_) => true
    case Obj(_) => true
  }

  /** `a || b`: the left operand when truthy, else the right one. */
  function Or(a: JsValue, b: JsValue): (r: JsValue)
    ensures Truthy(a) ==> r == a
    ensures !Truthy(a) ==> r == b
  {
    if Truthy(a) then a else b
  }

  /**
   * `v.key` for a value that is neither `null` nor `undefined` (reading a
   * property of those throws). Only objects have the data-field names read here.
   */
  function Get(v: JsValue, key: string): (r: JsValue)
    requires !v.Null? && !v.Undefined?
    ensures v.Obj? && key in v.fields ==> r == v.fields[key]
    ensures !(v.Obj? && key in v.fields) ==> r == Undefined
  {
    match v
    case Obj(m) => if key in m then m[key] else Undefined
    case _ => Undefined
  }

  /**
   * `v.length` for a value that is neither `null` nor `undefined`: the size of
   * a string or array, an object's own `length` field, else `undefined`.
   */
  function Length(v: JsValue): (r: JsValue)
    requires !v.Null? && !v.Undefined?
    ensures v.Arr? ==> r == Num(|v.items| as real)
    ensures v.Str? ==> r == Num(|v.s| as real)
    ensures v.Obj? ==> r == Get(v, "length")
    ensures v.Num? || v.Bool? ==> r == Undefined
  {
    match v
    case Arr(items) => Num(|items| as real)
    case Str(s) => Num(|s| as real)
    case Obj(_) => Get(v, "length")
    case _ => Undefined
  }

  /**
   * `v[0]` for a value that is neither `null` nor `undefined`: the first
   * element of an array, the first character of a string, an object's
   * field `"0"`, else `undefined`.
   */
  function First(v: JsValue): (r: JsValue)
    requires !v.Null? && !v.Undefined?
    ensures v.Arr? && |v.items| > 0 ==> r == v.items[0]
    ensures v.Str? && |v.s| > 0 ==> r == Str([v.s[0]])
    ensures v.Obj? ==> r == Get(v, "0")
    ensures (v.Arr? && v.items == []) || (v.Str? && v.s == []) || v.Num? || v.Bool? ==> r == Undefined
  {
    match v
    case Arr(items) => if |items| > 0 then items[0] else Undefined
    case Str(s) => if |s| > 0 then Str([s[0]]) else Undefined
    case Obj(_) => Get(v, "0")
    case _ => Undefined
  }

  /**
   * Whether converting `v` to a primitive throws a TypeError, as `Number(v)`
   * and `String(v)` both do. A JSON object with its own `toString` field
   * hides the inherited method behind a value that is not a function, and
   * its `valueOf` gives back the object itself, so no conversion is left;
   * an array converts by joining its elements, so it throws when one of them
   * does. Every other value converts.
   */
  predicate ConversionThrows(v: JsValue) {
    match v
    case Obj(m) => "toString" in m
    case Arr(items) => exists i :: 0 <= i < |items| && ConversionThrows(items[i])
    case _ => false
  }

  /**
   * `Number(v)`. An array converts through its string form: an empty one is
   * 0, a one-element array converts like its element (with `null`/`undefined`
   * giving 0 and booleans NaN), and a longer one contains a comma, so NaN.
   * The conversion throws exactly when `ConversionThrows(v)`.
   */
  function ToNumber(v: JsValue): (r: Result<Number>)
    ensures r.Thrown? <==> ConversionThrows(v)
    ensures r.Ok? ==> !r.value.PosInf? && !r.value.NegInf?
    ensures v.Num? ==> r == Ok(Finite(v.x))
    ensures v.Undefined? || (v.Obj? && "toString" !in v.fields) ==> r == Ok(NaN)
  {
    if ConversionThrows(v) then Thrown(TypeErrorMessage)
    else
      match v
      case Undefined => Ok(NaN)
      case Null => Ok(Finite(0.0))
      case Bool(b) => Ok(Finite(if b then 1.0 else 0.0))
      case Num(x) => Ok(Finite(x))
      case Str(s) => Ok(StringToNumber(s))
      case Arr(items) =>
        if |items| == 0 then Ok(Finite(0.0))
        else if |items| > 1 then Ok(NaN)
        else (
          match items[0]
          case Undefined => Ok(Finite(0.0))
          case Null => Ok(Finite(0.0))
          case Bool(_) => Ok(NaN)
          case Obj(_) => Ok(NaN)
          case _ => ToNumber(items[0]))
      case Obj(_) => Ok(NaN)
  }

  /**
   * `String(v)` for a value whose conversion does not throw (see
   * `ConversionThrows`). How a number is printed is the parameter `show`; an
   * array prints its elements joined by commas, with `null`/`undefined` as
   * empty.
   */
  function ToStr(v: JsValue, show: real -> string): (r: string)
    ensures v.Str? ==> r == v.s
    ensures v.Num? ==> r == show(v.x)
    ensures v.Obj? ==> r == "[object Object]"
    ensures v.Arr? && v.items == [] ==> r == ""
    ensures v.Arr? && |v.items| == 1 && (v.items[0].Null? || v.items[0].Undefined?) ==> r == ""
  {
    match v
    case Undefined => "undefined"
    case Null => "null"
    case Bool(b) => if b then "true" else "false"
    case Num(x) => show(x)
    case Str(s) => s
    case Arr(items) => Join(items, show)
    case Obj(_) => "[object Object]"
  }

  function Join(items: seq<JsValue>, show: real -> string): string
  {
    if items == [] then []
    else
      var head := if items[0].Null? || items[0].Undefined? then [] else ToStr(items[0], show);
      if |items| == 1 then head else head + "," + Join(items[1..], show)
  }
}
