/** The JSON-like values that documents, messages and analyzer results carry,
    and Python's truthiness of them. */
module Values {

  /** A point in time, standing for `datetime.now(timezone.utc)`. */
  type Timestamp = int

  /** A field value. `VNull` is Python's `None`; `VTime` a `datetime`, and
      equally the ISO-8601 string the store gives back for one. */
  datatype Value =
    | VNull
    | VBool(b: bool)
    | VInt(i: int)
    | VStr(s: string)
    | VTime(t: Timestamp)
    | VList(items: seq<Value>)

  /** A document: field name to value. */
  type Document = map<string, Value>

  /** Python's `bool(v)`. */
  predicate Truthy(v: Value)
  {
    match v
    case VNull => false
    case VBool(b) => b
    case VInt(i) => i != 0
    case VStr(s) => s != ""
    case VTime(_) => true
    case VList(items) => items != []
  }

  /** `d.get(k)`: the value under `k`, or `None` when `k` is absent. */
  function Get(d: Document, k: string): (r: Value)
    ensures k !in d ==> r == VNull
    ensures k in d ==> r == d[k]
  {
    if k in d then d[k] else VNull
  }

  /** Whether the document store indexes a value for a field: `null`, and a
      list holding no indexable value, count as missing. */
  predicate Indexable(v: Value)
  {
    match v
    case VNull => false
    case VList(items) => exists i | 0 <= i < |items| :: Indexable(items[i])
    case _ => true
  }

  /** A mutable Python `dict` passed by reference. */
  class Dict {
    var entries: Document

    constructor (entries: Document)
      ensures this.entries == entries
    {
      this.entries := entries;
    }
  }
}
