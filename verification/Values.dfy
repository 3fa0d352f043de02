/** Document values and sequence elements (crdt/value.go, listElem in crdt/doc.go). */
module Values {
  import opened OpIds

  type ObjID = Str

  datatype Kind = MapKind | ListKind | TextKind

  /** A point in time as Unix seconds and nanoseconds. */
  datatype Time = Time(seconds: int, nanos: nat)

  /** Only the field that the kind uses is kept. NoValue is the zero Value, whose
      kind is the empty string; Custom is a kind this version does not know.
      Floats and vector norms are their bit patterns. */
  datatype Value =
    | NoValue
    | Null
    | Bool(b: bool)
    | Int(i: int)
    | Uint(u: nat)
    | Float(bits: nat)
    | Text(str: Str)
    | Bytes(bytes: Str)
    | Counter(count: int)
    | Timestamp(time: Option<Time>)
    | ObjectValue(kind: Kind, obj: ObjID)
    | Vector(packed: Str, norm: nat, dim: int, width: int)
    | Custom(name: Str, text: Str)

  datatype Elem = Elem(id: OpID, after: Str, value: Value, deleted: bool, visId: OpID)
  {
    /** The element as its insert created it. */
    function Core(): Elem {
      Elem(id, after, value, false, id)
    }
  }
}
