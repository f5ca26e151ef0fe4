/**
 Decoding then encoding, for schemas that run to the end of the input: an end of input between two fields drops the
 bytes that were read for them, and those are all that encoding the value again does not give back.
 */
module CodecLoss {
  import opened Common
  import opened Schema
  import opened Integers
  import opened Encode
  import opened Decode
  import opened CodecProofs
  import opened CodecExact
  import opened CodecCanonical

  // ---- What the decoder still holds is the end of what it held ----

  predicate EndOf(rest: seq<byte>, bs: seq<byte>) {
    |rest| <= |bs| && rest == bs[|bs| - |rest|..]
  }

  lemma EndTrans(a: seq<byte>, b: seq<byte>, c: seq<byte>)
    requires EndOf(a, b) && EndOf(b, c)
    ensures EndOf(a, c)
  {
  }

  lemma ReadUintEnd(size: nat, bs: seq<byte>, order: ByteOrder)
    ensures EndOf(ReadUint(size, bs, order).rest, bs)
  {
  }

  lemma ReadFrameEnd(w: Width, bs: seq<byte>, order: ByteOrder)
    ensures EndOf(ReadFrame(w, bs, order).rest, bs)
  {
    var d := ReadUint(w.Size(), bs, order);
    ReadUintEnd(w.Size(), bs, order);
    if d.Got? { EndTrans(ReadFull(d.value, d.rest).rest, d.rest, bs); }
  }

  lemma {:induction false} RestIsEnd(t: GoType, tag: Tag, bs: seq<byte>, order: ByteOrder)
    ensures EndOf(Unmarshal(t, tag, bs, order).rest, bs)
    decreases t, 2, 0
  {
    match t
    case Uint(k) => ReadUintEnd(k.Size(), bs, order);
    case String => if tag.len.Some? { ReadFrameEnd(tag.len.value, bs, order); }
    case Array(n, e) => CountEnd(e, n, bs, order);
    case Slice(e) => SliceEnd(e, tag, bs, order);
    case Struct(fs) => StructEnd(fs, tag, bs, order);
    case Pointer(e) => if e.Struct? { StructEnd(e.fields, tag, bs, order); }
    case OtherKind =>
  }

  lemma {:induction false} SliceEnd(e: GoType, tag: Tag, bs: seq<byte>, order: ByteOrder)
    ensures EndOf(UnmarshalSlice(e, tag, bs, order).rest, bs)
    decreases e, 4, 0
  {
    if tag.len.Some? {
      ReadFrameEnd(tag.len.value, bs, order);
    } else if tag.count.Some? {
      var c := ReadUint(tag.count.value.Size(), bs, order);
      ReadUintEnd(tag.count.value.Size(), bs, order);
      if c.Got? {
        CountEnd(e, c.value, c.rest, order);
        EndTrans(UnmarshalCount(e, c.value, c.rest, order).rest, c.rest, bs);
      }
    } else {
      RestEnd(e, bs, order);
    }
  }

  lemma {:induction false} CountEnd(e: GoType, n: nat, bs: seq<byte>, order: ByteOrder)
    ensures EndOf(UnmarshalCount(e, n, bs, order).rest, bs)
    decreases e, 3, n
  {
    if n > 0 {
      var r := Unmarshal(e, PLAIN, bs, order).rest;
      RestIsEnd(e, PLAIN, bs, order);
      CountEnd(e, n - 1, r, order);
      EndTrans(UnmarshalCount(e, n - 1, r, order).rest, r, bs);
    }
  }

  lemma {:induction false} RestEnd(e: GoType, bs: seq<byte>, order: ByteOrder)
    ensures EndOf(UnmarshalRest(e, bs, order).rest, bs)
    decreases e, 3, |bs|
  {
    var r := Unmarshal(e, PLAIN, bs, order).rest;
    RestIsEnd(e, PLAIN, bs, order);
    if |r| < |bs| {
      RestEnd(e, r, order);
      EndTrans(UnmarshalRest(e, r, order).rest, r, bs);
    }
  }

  lemma {:induction false} StructEnd(fs: Fields, tag: Tag, bs: seq<byte>, order: ByteOrder)
    ensures EndOf(UnmarshalStruct(fs, tag, bs, order).rest, bs)
    decreases fs, 4, 0
  {
    if tag.len.Some? { ReadFrameEnd(tag.len.value, bs, order); } else { FieldsEnd(fs, bs, order); }
  }

  lemma {:induction false} FieldsEnd(fs: Fields, bs: seq<byte>, order: ByteOrder)
    ensures EndOf(UnmarshalFields(fs, bs, order).rest, bs)
    decreases fs, 3, 0
  {
    if fs.Field? {
      var r := Unmarshal(fs.typ, fs.tag, bs, order).rest;
      RestIsEnd(fs.typ, fs.tag, bs, order);
      FieldsEnd(fs.rest, r, order);
      EndTrans(UnmarshalFields(fs.rest, r, order).rest, r, bs);
    }
  }

  // ---- The bytes that are dropped ----

  function Taken(bs: seq<byte>, rest: seq<byte>): seq<byte> {
    if |rest| <= |bs| then bs[..|bs| - |rest|] else []
  }

  // What is read in vain: by the element at which a rest slice ends, or for an optional struct that is then absent.
  function Lost(t: GoType, tag: Tag, bs: seq<byte>, order: ByteOrder): seq<byte>
    decreases t, 2, 0
  {
    match t
    case Slice(e) => if tag.len.None? && tag.count.None? then LostRest(e, bs, order) else []
    case Struct(fs) => LostFields(fs, bs, order)
    case Pointer(e) =>
      if !e.Struct? then []
      else
        (match UnmarshalStruct(e.fields, tag, bs, order)
         case Failed(_, r) => Taken(bs, r)
         case Got(_, _) => LostFields(e.fields, bs, order))
    case _ => []
  }

  function LostRest(e: GoType, bs: seq<byte>, order: ByteOrder): seq<byte>
    decreases |bs|
  {
    match Unmarshal(e, PLAIN, bs, order)
    case Failed(_, r) => Taken(bs, r)
    case Got(_, r) => if |r| < |bs| then LostRest(e, r, order) else []
  }

  // Only the last field can run to the end of the input.
  function LostFields(fs: Fields, bs: seq<byte>, order: ByteOrder): seq<byte>
    decreases fs, 1, 0
  {
    match fs
    case End => []
    case Field(tag, t, rest) =>
      if rest.End? then Lost(t, tag, bs, order)
      else
        match Unmarshal(t, tag, bs, order)
        case Failed(_, _) => []
        case Got(_, r) => LostFields(rest, r, order)
  }

  lemma TakenThenRest(bs: seq<byte>, rest: seq<byte>)
    requires EndOf(rest, bs)
    ensures Taken(bs, rest) + rest == bs
  {
  }

  // ---- Encoding the value again gives back all the rest ----

  // The input is the encoding of the value, what was lost, and what is still to be read.
  predicate Accounted(out: Encoded, lost: seq<byte>, rest: seq<byte>, bs: seq<byte>) {
    out.Ok? && out.value + lost + rest == bs
  }

  lemma {:induction false} DecodedAndLost(t: GoType, tag: Tag, bs: seq<byte>, order: ByteOrder)
    requires Open(t, tag) && Tight(t, tag) && Unmarshal(t, tag, bs, order).Got?
    ensures var d := Unmarshal(t, tag, bs, order);
      && HasType(t, d.value)
      && Accounted(Marshal(t, d.value, tag, order), Lost(t, tag, bs, order), d.rest, bs)
    decreases t, 2, 0
  {
    DecodedHasType(t, tag, bs, order);
    match t
    case Slice(e) =>
      if tag.len.None? && tag.count.None? {
        RestAndLost(e, bs, order);
      } else {
        WithoutLoss(t, tag, bs, order);
      }
    case Struct(fs) =>
      ClosedIsOpen(fs);
      FieldsAndLost(fs, bs, order);
    case Pointer(e) => OptionalAndLost(e.fields, tag, bs, order);
    case _ => WithoutLoss(t, tag, bs, order);
  }

  lemma WithoutLoss(t: GoType, tag: Tag, bs: seq<byte>, order: ByteOrder)
    requires Closed(t, tag) && Tight(t, tag) && Unmarshal(t, tag, bs, order).Got?
    ensures var d := Unmarshal(t, tag, bs, order);
      HasType(t, d.value) && Accounted(Marshal(t, d.value, tag, order), [], d.rest, bs)
  {
    DecodedIsCanonical(t, tag, bs, order);
    var out := Marshal(t, Unmarshal(t, tag, bs, order).value, tag, order).value;
    assert out + [] == out;
  }

  lemma {:induction false} OptionalAndLost(fs: Fields, tag: Tag, bs: seq<byte>, order: ByteOrder)
    requires OpenFields(fs) && TightFields(fs) && tag.optional && tag.len.None? && !tag.Rejected()
    requires Unmarshal(Pointer(Struct(fs)), tag, bs, order).Got?
    ensures var d := Unmarshal(Pointer(Struct(fs)), tag, bs, order);
      && HasType(Pointer(Struct(fs)), d.value)
      && Accounted(Marshal(Pointer(Struct(fs)), d.value, tag, order), Lost(Pointer(Struct(fs)), tag, bs, order),
          d.rest, bs)
    decreases fs, 4, 0
  {
    DecodedHasType(Pointer(Struct(fs)), tag, bs, order);
    var d := UnmarshalStruct(fs, tag, bs, order);
    if d.Got? {
      FieldsAndLost(fs, bs, order);
    } else {
      StructEnd(fs, tag, bs, order);
      TakenThenRest(bs, d.rest);
      assert [] + Taken(bs, d.rest) == Taken(bs, d.rest);
    }
  }

  lemma {:induction false} RestAndLost(e: GoType, bs: seq<byte>, order: ByteOrder)
    requires Encodable(e) && Closed(e, PLAIN) && Tight(e, PLAIN) && UnmarshalRest(e, bs, order).Got?
    ensures var d := UnmarshalRest(e, bs, order);
      && (forall x <- d.value :: HasType(e, x))
      && Accounted(MarshalElems(e, d.value, order), LostRest(e, bs, order), d.rest, bs)
    decreases e, 3, |bs|
  {
    RestHasType(e, bs, order);
    var head := Unmarshal(e, PLAIN, bs, order);
    if head.Got? {
      var d := UnmarshalRest(e, head.rest, order);
      DecodedIsCanonical(e, PLAIN, bs, order);
      RestAndLost(e, head.rest, order);
      assert ([head.value] + d.value)[1..] == d.value;
      JoinParts(Marshal(e, head.value, PLAIN, order).value, MarshalElems(e, d.value, order).value,
                LostRest(e, head.rest, order), d.rest);
    } else {
      RestIsEnd(e, PLAIN, bs, order);
      TakenThenRest(bs, head.rest);
      assert [] + Taken(bs, head.rest) == Taken(bs, head.rest);
    }
  }

  lemma {:induction false} FieldsAndLost(fs: Fields, bs: seq<byte>, order: ByteOrder)
    requires OpenFields(fs) && TightFields(fs) && UnmarshalFields(fs, bs, order).Got?
    ensures var d := UnmarshalFields(fs, bs, order);
      && HaveTypes(fs, d.value)
      && Accounted(MarshalFields(fs, d.value, order), LostFields(fs, bs, order), d.rest, bs)
    decreases fs, 3, 0
  {
    FieldsHaveTypes(fs, bs, order);
    match fs
    case End => assert [] + [] + bs == bs;
    case Field(tag, t, rest) =>
      if rest.End? { LastAndLost(tag, t, bs, order); } else { FirstAndLost(tag, t, rest, bs, order); }
  }

  lemma {:induction false} LastAndLost(tag: Tag, t: GoType, bs: seq<byte>, order: ByteOrder)
    requires Open(t, tag) && Tight(t, tag) && UnmarshalFields(Field(tag, t, End), bs, order).Got?
    ensures var fs := Field(tag, t, End);
      var d := UnmarshalFields(fs, bs, order);
      && HaveTypes(fs, d.value)
      && Accounted(MarshalFields(fs, d.value, order), Lost(t, tag, bs, order), d.rest, bs)
    decreases t, 3, 0
  {
    var head := Unmarshal(t, tag, bs, order);
    DecodedAndLost(t, tag, bs, order);
    FieldsHaveTypes(Field(tag, t, End), bs, order);
    var out := Marshal(t, head.value, tag, order).value;
    assert [head.value] + [] == [head.value] && [head.value][1..] == [] && out + [] == out;
  }

  lemma {:induction false} FirstAndLost(tag: Tag, t: GoType, rest: Fields, bs: seq<byte>, order: ByteOrder)
    requires Closed(t, tag) && Tight(t, tag) && OpenFields(rest) && TightFields(rest) && rest.Field?
    requires UnmarshalFields(Field(tag, t, rest), bs, order).Got?
    ensures var fs := Field(tag, t, rest);
      var d := UnmarshalFields(fs, bs, order);
      && HaveTypes(fs, d.value)
      && Accounted(MarshalFields(fs, d.value, order), LostFields(fs, bs, order), d.rest, bs)
    decreases rest, 4, 0
  {
    var head := Unmarshal(t, tag, bs, order);
    var d := UnmarshalFields(rest, head.rest, order);
    DecodedIsCanonical(t, tag, bs, order);
    FieldsAndLost(rest, head.rest, order);
    FieldsHaveTypes(Field(tag, t, rest), bs, order);
    assert ([head.value] + d.value)[1..] == d.value;
    JoinParts(Marshal(t, head.value, tag, order).value, MarshalFields(rest, d.value, order).value,
              LostFields(rest, head.rest, order), d.rest);
  }

  lemma JoinParts(head: seq<byte>, tail: seq<byte>, lost: seq<byte>, rest: seq<byte>)
    ensures head + (tail + lost + rest) == head + tail + lost + rest
  {
  }

  // For every well-formed schema without `nullterm` strings and length-prefixed structs: encoding a decoded value gives
  // back the bytes that were read if and only if none were dropped.
  lemma RewrittenExactly(t: GoType, tag: Tag, bs: seq<byte>, order: ByteOrder)
    requires Open(t, tag) && Tight(t, tag) && Unmarshal(t, tag, bs, order).Got?
    ensures var d := Unmarshal(t, tag, bs, order);
      && HasType(t, d.value) && Marshal(t, d.value, tag, order).Ok?
      && (Marshal(t, d.value, tag, order).value + d.rest == bs <==> Lost(t, tag, bs, order) == [])
  {
    DecodedAndLost(t, tag, bs, order);
    var d := Unmarshal(t, tag, bs, order);
    var out := Marshal(t, d.value, tag, order).value;
    if Lost(t, tag, bs, order) == [] { assert out + [] == out; }
    assert |out| + |Lost(t, tag, bs, order)| + |d.rest| == |bs|;
  }

  const PAIRS := Slice(Struct(Field(PLAIN, Uint(Uint8), Field(PLAIN, Uint(Uint8), End))))

  // Pairs of bytes until the end of the input: of three bytes, the last one is dropped.
  lemma OddByteLost(a: byte, b: byte, c: byte, order: ByteOrder)
    ensures Unmarshal(PAIRS, PLAIN, [a, b, c], order) == Got(Elems([Record([Num(a), Num(b)])]), [])
    ensures Lost(PAIRS, PLAIN, [a, b, c], order) == [c]
  {
    var e := PAIRS.elem;
    assert [a, b] + [c] == [a, b, c];
    PairRead(a, b, [c], order);
    HalfPair(c, order);
    assert UnmarshalRest(e, [c], order) == Got([], []) && LostRest(e, [c], order) == [c];
    var pair := Record([Num(a), Num(b)]);
    assert UnmarshalRest(e, [a, b, c], order) == Got([pair] + [], []) && [pair] + [] == [pair];
    assert UnmarshalSlice(e, PLAIN, [a, b, c], order) == Got([pair], []);
    assert LostRest(e, [a, b, c], order) == [c];
  }

  lemma ByteRead(a: byte, rest: seq<byte>, order: ByteOrder)
    ensures Unmarshal(Uint(Uint8), PLAIN, [a] + rest, order) == Got(Num(a), rest)
  {
    assert ([a] + rest)[..1] == [a] && ([a] + rest)[1..] == rest;
    assert UintValue(order, [a]) == a;
  }

  lemma PairRead(a: byte, b: byte, rest: seq<byte>, order: ByteOrder)
    ensures Unmarshal(PAIRS.elem, PLAIN, [a, b] + rest, order) == Got(Record([Num(a), Num(b)]), rest)
  {
    var one := Field(PLAIN, Uint(Uint8), End);
    assert [a, b] + rest == [a] + ([b] + rest);
    ByteRead(a, [b] + rest, order);
    ByteRead(b, rest, order);
    assert UnmarshalFields(one, [b] + rest, order) == Got([Num(b)] + [], rest);
    assert [Num(a)] + ([Num(b)] + []) == [Num(a), Num(b)];
  }

  lemma HalfPair(c: byte, order: ByteOrder)
    ensures Unmarshal(PAIRS.elem, PLAIN, [c], order) == Failed(EOF, [])
  {
    var one := Field(PLAIN, Uint(Uint8), End);
    assert [c] + [] == [c];
    ByteRead(c, [], order);
    assert UnmarshalFields(one, [], order) == Failed(EOF, []);
  }
}
