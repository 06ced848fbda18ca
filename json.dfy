/**
 * Backend records as the store sees them: parsed JSON values, so trees.
 * `Undefined` is what reading a missing property gives.
 * Numbers are integers here.
 */
module Json {
  import opened Wrappers
  import Dict
  import opened Strings

  datatype Json =
    | Undefined
    | Null
    | Bool(b: bool)
    | Num(n: int)
    | Str(s: string)
    | Arr(items: seq<Json>)
    | Obj(fields: seq<(string, Json)>)

  /** `value === null || value === undefined`. */
  predicate IsNullish(j: Json) {
    j.Undefined? || j.Null?
  }

  /** JavaScript truthiness: `Boolean(value)`. */
  predicate Truthy(j: Json) {
    match j
    case Undefined => false
    case Null => false
    case Bool(b) => b
    case Num(n) => n != 0
    case Str(s) => s != ""
    case Arr(_) => true
    case Obj(_) => true
  }

  /** `value[key]` on a record; `undefined` on anything that is not an object with that key. */
  function Field(j: Json, key: string): (r: Json)
    ensures r != Undefined ==> j.Obj? && r < j
  {
    if j.Obj? then
      match Dict.Get(j.fields, key)
      case Some(v) =>
        var i := Dict.IndexOf(Dict.Keys(j.fields), key);
        assert j.fields[i].1 < j.fields[i] < j;
        v
      case None => Undefined
    else Undefined
  }

  /** `String(value)` for the values records hold. */
  function ToJsString(j: Json): string {
    match j
    case Undefined => "undefined"
    case Null => "null"
    case Bool(b) => if b then "true" else "false"
    case Num(n) => IntToString(n)
    case Str(s) => s
    case Arr(items) => JoinItems(items, j)
    case Obj(_) => "[object Object]"
  }

  /** `Array.prototype.join(",")`, which `String` uses on arrays: `null` and `undefined` become "". */
  function JoinItems(items: seq<Json>, ghost owner: Json): string
    requires forall i | 0 <= i < |items| :: items[i] < owner
    decreases owner, |items|
  {
    if items == [] then ""
    else
      var first := if IsNullish(items[0]) then "" else ToJsString(items[0]);
      if |items| == 1 then first else first + "," + JoinItems(items[1..], owner)
  }
}
