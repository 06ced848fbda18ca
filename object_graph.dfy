/**
 * The values the URL resolver walks: arbitrary JavaScript values, which may
 * share and cycle. Objects and arrays live in a heap and are reached by
 * reference, so "the same object" means "the same node id".
 */
module ObjectGraph {
  import opened Wrappers
  import Dict

  type NodeId = nat

  datatype Value =
    | Undefined
    | Null
    | Bool(b: bool)
    | Num(n: int)
    | Str(s: string)
    | Ref(id: NodeId)

  /** An array's elements, or a plain object's own enumerable properties in `Object.entries` order. */
  datatype Node =
    | Array(items: seq<Value>)
    | Object(fields: Dict.Dict<Value>)

  type Heap = map<NodeId, Node>

  /** `value === null || value === undefined`. */
  predicate IsNullish(v: Value) {
    v.Undefined? || v.Null?
  }

  /** `Boolean(value)`. */
  predicate Truthy(v: Value) {
    match v
    case Undefined => false
    case Null => false
    case Bool(b) => b
    case Num(n) => n != 0
    case Str(s) => s != ""
    case Ref(_) => true
  }

  /** `key in value` for an object. */
  predicate HasProp(h: Heap, v: Value, key: string) {
    v.Ref? && v.id in h && h[v.id].Object? && Dict.HasKey(h[v.id].fields, key)
  }

  /**
   * `value?.[key]`: the property of an object, `undefined` for a missing key
   * and for anything that is not an object (none of the keys read here is a
   * property of arrays or of primitive wrappers).
   */
  function Prop(h: Heap, v: Value, key: string): (r: Value)
    ensures HasProp(h, v, key) ==> Dict.Get(h[v.id].fields, key) == Some(r)
    ensures !HasProp(h, v, key) ==> r == Undefined
  {
    if HasProp(h, v, key) then Dict.Get(h[v.id].fields, key).value else Undefined
  }

  /**
   * `hasPocketBaseMetadata`: a truthy object carrying `collectionId` or
   * `collectionName`, the marks of a PocketBase record.
   */
  predicate HasMetadata(h: Heap, v: Value) {
    HasProp(h, v, "collectionId") || HasProp(h, v, "collectionName")
  }

  /** A node id that is such a record. */
  predicate IsRecord(h: Heap, id: NodeId) {
    HasMetadata(h, Ref(id))
  }
}
