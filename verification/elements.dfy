/**
 The parsed DOM element of simdjson, as seen by the binding layer: a closed tagged union
 over the eight element types, with arrays and objects holding their children in document
 order. Object members keep duplicate keys exactly as written.
 */
module Elements {

  /** The 64-bit integer payloads simdjson stores for INT64 and UINT64 elements. */
  newtype int64 = x: int | -0x8000_0000_0000_0000 <= x < 0x8000_0000_0000_0000
  newtype uint64 = x: int | 0 <= x < 0x1_0000_0000_0000_0000

  /** A parsed JSON value. A DOUBLE is represented by the real number it denotes: the parser
      only produces finite doubles, and `==` on finite doubles is equality of their values. */
  datatype Json =
    | Null
    | Bool(b: bool)
    | Int64(i: int64)
    | UInt64(u: uint64)
    | Double(d: real)
    | Str(s: string)
    | Arr(elems: seq<Json>)
    | Obj(members: seq<Member>)

  /** One key/value pair of an object, in the order the document wrote it. */
  datatype Member = Member(key: string, value: Json)

  /** simdjson's `element_type`. */
  datatype Tag =
    | NullTag | BoolTag | Int64Tag | UInt64Tag | DoubleTag | StringTag | ArrayTag | ObjectTag

  function TagOf(j: Json): Tag {
    match j
    case Null => NullTag
    case Bool(_) => BoolTag
    case Int64(_) => Int64Tag
    case UInt64(_) => UInt64Tag
    case Double(_) => DoubleTag
    case Str(_) => StringTag
    case Arr(_) => ArrayTag
    case Obj(_) => ObjectTag
  }

  predicate IsNumeric(t: Tag) {
    t == Int64Tag || t == UInt64Tag || t == DoubleTag
  }

  predicate IsContainer(j: Json) {
    j.Arr? || j.Obj?
  }

  datatype Option<+T> = None | Some(value: T)
}
