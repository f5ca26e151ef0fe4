/** The printer: what MarshalBE and MarshalLE write for a value of a given schema. */
module Encode {
  import opened Common
  import opened Schema
  import opened Integers

  type Encoded = Result<seq<byte>, CodecError>

  // A length or count prefix. The conversion to the prefix type drops the high bits without complaint.
  function Prefix(w: Width, n: nat, order: ByteOrder): (bs: seq<byte>)
    ensures |bs| == w.Size()
  {
    UintBytes(order, w.Size(), n % w.Modulus())
  }

  function Marshal(t: GoType, v: Value, tag: Tag, order: ByteOrder): Encoded
    requires HasType(t, v)
    decreases t, 2
  {
    if tag.Rejected() then Err(InvalidStructTag)
    else if tag.optional then
      if !t.Pointer? then Err(OptionalNonPointer)
      else if v.Nil? then Ok([])
      else if !t.target.Struct? then Err(BadPointerTarget)
      else assert HasType(t.target, v.target); MarshalStruct(t.target.fields, v.target.fields, tag, order)
    else match t
      case Pointer(_) => Err(NonOptionalPointer)
      case Array(_, e) => MarshalElems(e, v.elems, order)
      case Slice(e) => MarshalSlice(e, v.elems, tag, order)
      case String => Ok(MarshalString(v.bytes, tag, order))
      case Struct(fs) => MarshalStruct(fs, v.fields, tag, order)
      case Uint(k) => Ok(UintBytes(order, k.Size(), v.n))
      case OtherKind => Err(UnsupportedType)
  }

  // The elements of an array or a slice, back to back.
  function MarshalElems(e: GoType, vs: seq<Value>, order: ByteOrder): Encoded
    requires forall x <- vs :: HasType(e, x)
    decreases e, 3, |vs|
  {
    if !Encodable(e) then Err(UnsupportedType)
    else if vs == [] then Ok([])
    else
      match Marshal(e, vs[0], PLAIN, order)
      case Err(x) => Err(x)
      case Ok(head) =>
        match MarshalElems(e, vs[1..], order)
        case Err(x) => Err(x)
        case Ok(tail) => Ok(head + tail)
  }

  function MarshalSlice(e: GoType, vs: seq<Value>, tag: Tag, order: ByteOrder): Encoded
    requires forall x <- vs :: HasType(e, x)
    decreases e, 4
  {
    match MarshalElems(e, vs, order)
    case Err(x) => Err(x)
    case Ok(body) =>
      if tag.len.Some? then Ok(Prefix(tag.len.value, |body|, order) + body)
      else if tag.count.Some? then Ok(Prefix(tag.count.value, |vs|, order) + body)
      else Ok(body)
  }

  // A non-empty string under `nullterm` carries one NUL after its characters.
  function Terminated(s: seq<byte>, tag: Tag): seq<byte> {
    if tag.nullterm && s != [] then s + [0] else s
  }

  function MarshalString(s: seq<byte>, tag: Tag, order: ByteOrder): seq<byte> {
    var body := Terminated(s, tag);
    if tag.len.Some? then Prefix(tag.len.value, |body|, order) + body else body
  }

  function MarshalStruct(fs: Fields, vs: seq<Value>, tag: Tag, order: ByteOrder): Encoded
    requires HaveTypes(fs, vs)
    decreases fs, 4
  {
    match MarshalFields(fs, vs, order)
    case Err(x) => Err(x)
    case Ok(body) =>
      if tag.len.Some? then Ok(Prefix(tag.len.value, |body|, order) + body) else Ok(body)
  }

  function MarshalFields(fs: Fields, vs: seq<Value>, order: ByteOrder): Encoded
    requires HaveTypes(fs, vs)
    decreases fs, 3
  {
    match fs
    case End => Ok([])
    case Field(tag, t, rest) =>
      if t.Pointer? && !rest.End? then Err(MisplacedPointer)
      else if t.Pointer? && !t.target.Struct? then Err(BadPointerTarget)
      else
        match Marshal(t, vs[0], tag, order)
        case Err(x) => Err(x)
        case Ok(head) =>
          match MarshalFields(rest, vs[1..], order)
          case Err(x) => Err(x)
          case Ok(tail) => Ok(head + tail)
  }
}
