/**
 The Go types that the OSCAR codec walks by reflection, together with the `oscar` struct tags, and the values
 those types hold. A schema is a value of `GoType`; the codec is then an ordinary function of a schema.
 */
module Schema {
  import opened Common

  datatype ByteOrder = BigEndian | LittleEndian

  // The two integer widths that a len_prefix or count_prefix tag may name.
  datatype Width = Prefix8 | Prefix16 {
    function Size(): nat { if Prefix8? then 1 else 2 }
    function Modulus(): nat { if Prefix8? then 0x100 else 0x1_0000 }
  }

  datatype IntKind = Uint8 | Uint16 | Uint32 | Uint64 {
    function Size(): nat {
      match this
      case Uint8 => 1
      case Uint16 => 2
      case Uint32 => 4
      case Uint64 => 8
    }
  }

  datatype Tag = Tag(len: Option<Width>, count: Option<Width>, optional: bool, nullterm: bool) {
    // The one combination of well-spelled keys that parseOSCARTag refuses.
    predicate Rejected() { len.Some? && count.Some? }
  }

  const PLAIN := Tag(None, None, false, false)

  datatype GoType =
    | Uint(kind: IntKind)
    | Array(len: nat, elem: GoType)
    | Slice(elem: GoType)
    | String
    | Struct(fields: Fields)
    | Pointer(target: GoType)
    | OtherKind // bool, signed integers, floats, maps, ...

  // The fields of a struct in declaration order, each with its tag.
  datatype Fields = End | Field(tag: Tag, typ: GoType, rest: Fields)

  datatype Value =
    | Num(n: nat)
    | Text(bytes: seq<byte>)
    | Elems(elems: seq<Value>)  // an array or a slice
    | Record(fields: seq<Value>)
    | Nil
    | Ref(target: Value)
    | Opaque

  datatype CodecError =
    | EOF               // io.EOF: nothing left to read
    | UnexpectedEOF     // io.ErrUnexpectedEOF: some, but not enough, left to read
    | InvalidStructTag
    | OptionalNonPointer
    | NonOptionalPointer
    | MisplacedPointer  // a pointer field that is not the last one
    | BadPointerTarget  // a pointer to something other than a struct
    | MissingLenPrefix
    | UnsupportedType
    | Stuck             // a decode loop that consumes nothing and so never ends

  function Pow256(n: nat): (p: nat)
    ensures p > 0
  {
    if n == 0 then 1 else 256 * Pow256(n - 1)
  }

  // Go's static typing: which values a variable of the type can hold.
  predicate HasType(t: GoType, v: Value) {
    match t
    case Uint(k) => v.Num? && v.n < Pow256(k.Size())
    case Array(n, e) => v.Elems? && |v.elems| == n && forall x <- v.elems :: HasType(e, x)
    case Slice(e) => v.Elems? && forall x <- v.elems :: HasType(e, x)
    case String => v.Text?
    case Struct(fs) => v.Record? && HaveTypes(fs, v.fields)
    case Pointer(e) => v.Nil? || (v.Ref? && HasType(e, v.target))
    case OtherKind => v.Opaque?
  }

  predicate HaveTypes(fs: Fields, vs: seq<Value>) {
    match fs
    case End => vs == []
    case Field(_, t, rest) => vs != [] && HasType(t, vs[0]) && HaveTypes(rest, vs[1..])
  }

  // The element types that encoding/binary writes as one block: unsigned integers and arrays of them.
  predicate Fixed(t: GoType) {
    match t
    case Uint(_) => true
    case Array(_, e) => Fixed(e)
    case _ => false
  }

  predicate Encodable(elem: GoType) { elem.Struct? || Fixed(elem) }

  // A value of this type always takes at least one byte on the wire.
  predicate Wide(t: GoType, tag: Tag) {
    match t
    case Uint(_) => true
    case Array(n, e) => n > 0 && Wide(e, PLAIN)
    case String => tag.len.Some?
    case Slice(_) => tag.len.Some? || tag.count.Some?
    case Struct(fs) => tag.len.Some? || AnyWide(fs)
    case Pointer(_) => false
    case OtherKind => false
  }

  predicate AnyWide(fs: Fields) {
    fs.Field? && (Wide(fs.typ, fs.tag) || AnyWide(fs.rest))
  }

  // A self-delimiting schema: the decoder knows where the value ends without looking for the end of the input.
  predicate Closed(t: GoType, tag: Tag)
    decreases t, 0
  {
    && !tag.Rejected()
    && !tag.optional
    && match t
       case Uint(_) => true
       case Array(_, e) => Encodable(e) && Closed(e, PLAIN)
       case String => tag.len.Some?
       case Slice(e) =>
         && Encodable(e) && Closed(e, PLAIN)
         && (tag.count.Some? || (tag.len.Some? && Wide(e, PLAIN)))
       case Struct(fs) => if tag.len.Some? then OpenFields(fs) else ClosedFields(fs)
       case Pointer(_) => false
       case OtherKind => false
  }

  predicate ClosedFields(fs: Fields)
    decreases fs, 0
  {
    fs.Field? ==> Closed(fs.typ, fs.tag) && ClosedFields(fs.rest)
  }

  // A well-formed schema: closed, or one whose tail runs to the end of its frame (a "rest" slice, an optional
  // struct, or a struct that ends in one of them).
  predicate Open(t: GoType, tag: Tag)
    decreases t, 1
  {
    Closed(t, tag) ||
    (!tag.Rejected() &&
     match t
     case Slice(e) =>
       && !tag.optional && tag.len.None? && tag.count.None?
       && Encodable(e) && Closed(e, PLAIN) && Wide(e, PLAIN)
     case Struct(fs) => !tag.optional && tag.len.None? && OpenFields(fs)
     case Pointer(e) =>
       tag.optional && e.Struct? && OpenFields(e.fields) && (tag.len.Some? || AnyWide(e.fields))
     case _ => false)
  }

  predicate OpenFields(fs: Fields)
    decreases fs, 0
  {
    fs.Field? ==>
      if fs.rest.End? then Open(fs.typ, fs.tag)
      else Closed(fs.typ, fs.tag) && OpenFields(fs.rest)
  }

  // Every slice that is decoded until its bytes run out has elements at least one byte wide.
  predicate LoopSafe(t: GoType, tag: Tag) {
    match t
    case Array(_, e) => LoopSafe(e, PLAIN)
    case Slice(e) => LoopSafe(e, PLAIN) && ((tag.count.Some? && tag.len.None?) || Wide(e, PLAIN))
    case Struct(fs) => LoopSafeFields(fs)
    case Pointer(e) => LoopSafe(e, tag)
    case _ => true
  }

  predicate LoopSafeFields(fs: Fields) {
    fs.Field? ==> LoopSafe(fs.typ, fs.tag) && LoopSafeFields(fs.rest)
  }
}
