/** The parser: what UnmarshalBE and UnmarshalLE read, and what they leave unread, for a given schema. */
module Decode {
  import opened Common
  import opened Schema
  import opened Integers

  // The outcome of a read: a value or an error, and the bytes the reader still holds.
  datatype Read<+T> = Got(value: T, rest: seq<byte>) | Failed(error: CodecError, rest: seq<byte>)

  // io.ReadFull: an empty reader gives EOF, a short one gives UnexpectedEOF and is drained.
  function ReadFull(n: nat, bs: seq<byte>): Read<seq<byte>> {
    if n == 0 then Got([], bs)
    else if bs == [] then Failed(EOF, [])
    else if |bs| < n then Failed(UnexpectedEOF, [])
    else Got(bs[..n], bs[n..])
  }

  function ReadUint(size: nat, bs: seq<byte>, order: ByteOrder): Read<nat> {
    match ReadFull(size, bs)
    case Failed(x, r) => Failed(x, r)
    case Got(b, r) => Got(UintValue(order, b), r)
  }

  // A length prefix followed by that many bytes.
  function ReadFrame(w: Width, bs: seq<byte>, order: ByteOrder): Read<seq<byte>> {
    match ReadUint(w.Size(), bs, order)
    case Failed(x, r) => Failed(x, r)
    case Got(n, r) => ReadFull(n, r)
  }

  // The prefix of the bytes that comes before the first NUL.
  function UpToNul(bs: seq<byte>): (s: seq<byte>)
    ensures s <= bs && 0 !in s
    ensures |s| < |bs| ==> bs[|s|] == 0
  {
    if bs == [] || bs[0] == 0 then [] else [bs[0]] + UpToNul(bs[1..])
  }

  function Unmarshal(t: GoType, tag: Tag, bs: seq<byte>, order: ByteOrder): (d: Read<Value>)
    ensures |d.rest| <= |bs|
    decreases t, 2, 0
  {
    if tag.Rejected() then Failed(InvalidStructTag, bs)
    else if tag.optional then
      if !t.Pointer? then Failed(OptionalNonPointer, bs)
      else if !t.target.Struct? then Failed(BadPointerTarget, bs)
      else
        match UnmarshalStruct(t.target.fields, tag, bs, order)
        case Failed(x, r) => if x == EOF then Got(Nil, r) else Failed(x, r)
        case Got(v, r) => Got(Ref(v), r)
    else match t
      case Pointer(_) => Failed(NonOptionalPointer, bs)
      case Array(n, e) => ToElems(UnmarshalCount(e, n, bs, order))
      case Slice(e) => ToElems(UnmarshalSlice(e, tag, bs, order))
      case String => UnmarshalString(tag, bs, order)
      case Struct(fs) => UnmarshalStruct(fs, tag, bs, order)
      case Uint(k) =>
        (match ReadUint(k.Size(), bs, order)
         case Failed(x, r) => Failed(x, r)
         case Got(n, r) => Got(Num(n), r))
      case OtherKind => Failed(UnsupportedType, bs)
  }

  function ToElems(d: Read<seq<Value>>): Read<Value> {
    match d
    case Failed(x, r) => Failed(x, r)
    case Got(vs, r) => Got(Elems(vs), r)
  }

  function UnmarshalSlice(e: GoType, tag: Tag, bs: seq<byte>, order: ByteOrder): (d: Read<seq<Value>>)
    ensures |d.rest| <= |bs|
    decreases e, 4, 0
  {
    if tag.len.Some? then
      match ReadFrame(tag.len.value, bs, order)
      case Failed(x, r) => Failed(x, r)
      case Got(b, r) =>
        match UnmarshalFrame(e, b, order)
        case Failed(x, _) => Failed(x, r)
        case Got(vs, _) => Got(vs, r)
    else if tag.count.Some? then
      match ReadUint(tag.count.value.Size(), bs, order)
      case Failed(x, r) => Failed(x, r)
      case Got(n, r) => UnmarshalCount(e, n, r, order)
    else UnmarshalRest(e, bs, order)
  }

  // Exactly n elements.
  function UnmarshalCount(e: GoType, n: nat, bs: seq<byte>, order: ByteOrder): (d: Read<seq<Value>>)
    ensures |d.rest| <= |bs|
    ensures d.Got? ==> |d.value| == n
    decreases e, 3, n
  {
    if n == 0 then Got([], bs)
    else
      match Unmarshal(e, PLAIN, bs, order)
      case Failed(x, r) => Failed(x, r)
      case Got(v, r) =>
        match UnmarshalCount(e, n - 1, r, order)
        case Failed(x, r') => Failed(x, r')
        case Got(vs, r') => Got([v] + vs, r')
  }

  // Elements until the frame is used up.
  function UnmarshalFrame(e: GoType, bs: seq<byte>, order: ByteOrder): (d: Read<seq<Value>>)
    ensures |d.rest| <= |bs|
    decreases e, 3, |bs|
  {
    if bs == [] then Got([], bs)
    else
      match Unmarshal(e, PLAIN, bs, order)
      case Failed(x, r) => Failed(x, r)
      case Got(v, r) =>
        if |r| == |bs| then Failed(Stuck, r)
        else
          match UnmarshalFrame(e, r, order)
          case Failed(x, r') => Failed(x, r')
          case Got(vs, r') => Got([v] + vs, r')
  }

  // Elements until a read reports the end of the input.
  function UnmarshalRest(e: GoType, bs: seq<byte>, order: ByteOrder): (d: Read<seq<Value>>)
    ensures |d.rest| <= |bs|
    decreases e, 3, |bs|
  {
    match Unmarshal(e, PLAIN, bs, order)
    case Failed(x, r) => if x == EOF then Got([], r) else Failed(x, r)
    case Got(v, r) =>
      if |r| == |bs| then Failed(Stuck, r)
      else
        match UnmarshalRest(e, r, order)
        case Failed(x, r') => Failed(x, r')
        case Got(vs, r') => Got([v] + vs, r')
  }

  function UnmarshalString(tag: Tag, bs: seq<byte>, order: ByteOrder): (d: Read<Value>)
    ensures |d.rest| <= |bs|
  {
    if tag.len.None? then Failed(MissingLenPrefix, bs)
    else
      match ReadFrame(tag.len.value, bs, order)
      case Failed(x, r) => Failed(x, r)
      case Got(b, r) => Got(Text(if tag.nullterm then UpToNul(b) else b), r)
  }

  function UnmarshalStruct(fs: Fields, tag: Tag, bs: seq<byte>, order: ByteOrder): (d: Read<Value>)
    ensures |d.rest| <= |bs|
    decreases fs, 4, 0
  {
    if tag.len.Some? then
      match ReadFrame(tag.len.value, bs, order)
      case Failed(x, r) => Failed(x, r)
      case Got(b, r) =>
        match UnmarshalFields(fs, b, order)
        case Failed(x, _) => Failed(x, r)
        case Got(vs, _) => Got(Record(vs), r)
    else
      match UnmarshalFields(fs, bs, order)
      case Failed(x, r) => Failed(x, r)
      case Got(vs, r) => Got(Record(vs), r)
  }

  function UnmarshalFields(fs: Fields, bs: seq<byte>, order: ByteOrder): (d: Read<seq<Value>>)
    ensures |d.rest| <= |bs|
    decreases fs, 3, 0
  {
    match fs
    case End => Got([], bs)
    case Field(tag, t, rest) =>
      if t.Pointer? && !rest.End? then Failed(MisplacedPointer, bs)
      else if t.Pointer? && !t.target.Struct? then Failed(BadPointerTarget, bs)
      else
        match Unmarshal(t, tag, bs, order)
        case Failed(x, r) => Failed(x, r)
        case Got(v, r) =>
          match UnmarshalFields(rest, r, order)
          case Failed(x, r') => Failed(x, r')
          case Got(vs, r') => Got([v] + vs, r')
  }
}
