/** Documents as the two services exchange them: JSON objects mapping field
    names to values, the reserved key field `_id`, and the outcomes of the
    request handlers. */
module Documents {

  /** A JSON value as it appears in a request body or a stored document. */
  datatype Value =
    | Null
    | Bool(b: bool)
    | Int(i: int)
    | Str(s: string)
    | Arr(items: seq<Value>)
    | Obj(fields: map<string, Value>)

  /** A stored document, a request body or a filter: field name to value. */
  type Document = map<string, Value>

  /** The key field the document store indexes every document by. */
  const IdField: string := "_id"

  /** The signed 8-byte range, the widest integer the store's encoding
      (BSON) holds; the driver refuses to encode any other integer. */
  const MinInt64: int := -0x8000_0000_0000_0000
  const MaxInt64: int := 0x7FFF_FFFF_FFFF_FFFF

  predicate InInt64(n: int) {
    MinInt64 <= n <= MaxInt64
  }

  /** The driver can encode a field name: BSON writes names as
      NUL-terminated strings, so a name holding a NUL byte is refused. */
  predicate KeyEncodable(k: string) {
    '\0' !in k
  }

  /** The driver can encode the value: every integer in it is in range and
      every field name in it can be encoded. */
  predicate Encodable(v: Value)
    decreases v
  {
    match v
    case Int(n) => InInt64(n)
    case Arr(items) => forall i :: 0 <= i < |items| ==> Encodable(items[i])
    case Obj(fields) => forall k :: k in fields ==> KeyEncodable(k) && Encodable(fields[k])
    case _ => true
  }

  /** The driver can encode the document (as a filter, an insert or a
      `$set`): its field names and its values. */
  predicate DocEncodable(d: Document) {
    forall k :: k in d ==> KeyEncodable(k) && Encodable(d[k])
  }

  datatype Option<+T> = None | Some(value: T)

  /** What a handler answers.  `NotFound` stands for `abort(404)`,
      `MissingData` for `abort(400)`, and `Fault` for an exception the
      handler does not catch (an HTTP 500). */
  datatype Result<+T> =
    | Ok(value: T)
    | NotFound
    | MissingData
    | Fault
}
