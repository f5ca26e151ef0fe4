/**
 The bytes on the wire, construct by construct, and which error a schema or a value gives that cannot be encoded or
 decoded.
 */
module WireFormat {
  import opened Common
  import opened Schema
  import opened Integers
  import opened Encode
  import opened Decode
  import opened CodecProofs

  // A tag with a length prefix, a count prefix, or neither.
  function LenTag(w: Width, nullterm: bool): Tag { Tag(Some(w), None, false, nullterm) }
  function CountTag(w: Width): Tag { Tag(None, Some(w), false, false) }

  // ---- Integers ----

  lemma {:induction false} LittleDigit(size: nat, n: nat, i: nat)
    requires i < size
    ensures LittleBytes(size, n)[i] == n / Pow256(i) % 256
  {
    if i > 0 {
      LittleDigit(size - 1, n / 256, i - 1);
      DivideTwice(n, 256, Pow256(i - 1));
    }
  }

  // An integer of k bytes has them from the most significant one on in big-endian order, and the other way around in
  // little-endian order.
  lemma IntegerOnWire(k: IntKind, n: nat, i: nat)
    requires n < Pow256(k.Size()) && i < k.Size()
    ensures var big, little := Marshal(Uint(k), Num(n), PLAIN, BigEndian), Marshal(Uint(k), Num(n), PLAIN,
            LittleEndian);
      && big.Ok? && |big.value| == k.Size() && big.value[i] == n / Pow256(k.Size() - 1 - i) % 256
      && little.Ok? && |little.value| == k.Size() && little.value[i] == n / Pow256(i) % 256
  {
    var size := k.Size();
    LittleDigit(size, n, i);
    LittleDigit(size, n, size - 1 - i);
    assert UintBytes(BigEndian, size, n)[i] == LittleBytes(size, n)[size - 1 - i];
  }

  // The four kinds take one, two, four and eight bytes, and the prefixes one and two.
  lemma Sizes()
    ensures Uint8.Size() == 1 && Uint16.Size() == 2 && Uint32.Size() == 4 && Uint64.Size() == 8
    ensures Prefix8.Size() == 1 && Prefix16.Size() == 2
  {
  }

  lemma PrefixFits(w: Width, n: nat, order: ByteOrder)
    requires n < w.Modulus()
    ensures Prefix(w, n, order) == UintBytes(order, w.Size(), n) && n % w.Modulus() == n
  {
    assert n % w.Modulus() == n;
  }

  // ---- Strings ----

  // With `nullterm`, a NUL follows the characters and is counted in the prefix.
  lemma TerminatedOnWire(s: seq<byte>, w: Width, order: ByteOrder)
    requires s != [] && |s| + 1 < w.Modulus()
    ensures Marshal(String, Text(s), LenTag(w, true), order) == Ok(UintBytes(order, w.Size(), |s| + 1) + (s + [0]))
  {
    PrefixFits(w, |s| + 1, order);
    assert Terminated(s, LenTag(w, true)) == s + [0];
  }

  // No NUL follows the empty string: there is a zero prefix and nothing else.
  lemma EmptyOnWire(w: Width, order: ByteOrder)
    ensures Marshal(String, Text([]), LenTag(w, true), order) == Ok(UintBytes(order, w.Size(), 0))
  {
    PrefixFits(w, 0, order);
    assert UintBytes(order, w.Size(), 0) + [] == UintBytes(order, w.Size(), 0);
  }

  lemma StringOnWire(s: seq<byte>, w: Width, order: ByteOrder)
    requires |s| < w.Modulus()
    ensures Marshal(String, Text(s), LenTag(w, false), order) == Ok(UintBytes(order, w.Size(), |s|) + s)
  {
    PrefixFits(w, |s|, order);
    assert Terminated(s, LenTag(w, false)) == s;
  }

  // Without a prefix only the characters are written, and nothing can be read back.
  lemma BareString(s: seq<byte>, bs: seq<byte>, order: ByteOrder)
    ensures Marshal(String, Text(s), PLAIN, order) == Ok(s)
    ensures Unmarshal(String, PLAIN, bs, order) == Failed(MissingLenPrefix, bs)
  {
  }

  // ---- Arrays and slices ----

  // The elements follow one another.
  lemma ElementsOnWire(e: GoType, v: Value, vs: seq<Value>, order: ByteOrder)
    requires Encodable(e) && HasType(e, v) && forall x <- vs :: HasType(e, x)
    ensures Marshal(Array(0, e), Elems([]), PLAIN, order) == Ok([])
    ensures var head, tail := Marshal(e, v, PLAIN, order), Marshal(Array(|vs|, e), Elems(vs), PLAIN, order);
      head.Ok? && tail.Ok? ==>
        Marshal(Array(|vs| + 1, e), Elems([v] + vs), PLAIN, order) == Ok(head.value + tail.value)
  {
    assert ([v] + vs)[1..] == vs;
  }

  // A slice without a prefix is written like an array of its elements.
  lemma SliceOnWire(e: GoType, vs: seq<Value>, order: ByteOrder)
    requires forall x <- vs :: HasType(e, x)
    ensures Marshal(Slice(e), Elems(vs), PLAIN, order) == Marshal(Array(|vs|, e), Elems(vs), PLAIN, order)
  {
  }

  // With `len_prefix` the number of bytes comes first.
  lemma SliceAfterLength(e: GoType, vs: seq<Value>, w: Width, order: ByteOrder)
    requires (forall x <- vs :: HasType(e, x)) && Marshal(Slice(e), Elems(vs), PLAIN, order).Ok?
    requires |Marshal(Slice(e), Elems(vs), PLAIN, order).value| < w.Modulus()
    ensures var body := Marshal(Slice(e), Elems(vs), PLAIN, order).value;
      Marshal(Slice(e), Elems(vs), LenTag(w, false), order) == Ok(UintBytes(order, w.Size(), |body|) + body)
  {
    PrefixFits(w, |Marshal(Slice(e), Elems(vs), PLAIN, order).value|, order);
  }

  // With `count_prefix` the number of elements comes first.
  lemma SliceAfterCount(e: GoType, vs: seq<Value>, w: Width, order: ByteOrder)
    requires (forall x <- vs :: HasType(e, x)) && Marshal(Slice(e), Elems(vs), PLAIN, order).Ok? && |vs| < w.Modulus()
    ensures var body := Marshal(Slice(e), Elems(vs), PLAIN, order).value;
      Marshal(Slice(e), Elems(vs), CountTag(w), order) == Ok(UintBytes(order, w.Size(), |vs|) + body)
  {
    PrefixFits(w, |vs|, order);
  }

  // ---- Structs ----

  // The fields follow one another, each under its own tag, after the number of their bytes with `len_prefix`.
  lemma FieldsOnWire(tag: Tag, t: GoType, rest: Fields, v: Value, vs: seq<Value>, order: ByteOrder)
    requires HasType(t, v) && HaveTypes(rest, vs) && (t.Pointer? ==> rest.End? && t.target.Struct?)
    ensures Marshal(Struct(End), Record([]), PLAIN, order) == Ok([])
    ensures var fs := Field(tag, t, rest);
      && ([v] + vs)[1..] == vs && HaveTypes(fs, [v] + vs)
      && var head, tail := Marshal(t, v, tag, order), Marshal(Struct(rest), Record(vs), PLAIN, order);
         head.Ok? && tail.Ok? ==> Marshal(Struct(fs), Record([v] + vs), PLAIN, order) == Ok(head.value + tail.value)
  {
    var fs := Field(tag, t, rest);
    assert ([v] + vs)[1..] == vs;
    assert Marshal(Struct(fs), Record([v] + vs), PLAIN, order) == MarshalFields(fs, [v] + vs, order);
    assert Marshal(Struct(rest), Record(vs), PLAIN, order) == MarshalFields(rest, vs, order);
  }

  lemma StructOnWire(fs: Fields, vs: seq<Value>, w: Width, order: ByteOrder)
    requires HaveTypes(fs, vs) && Marshal(Struct(fs), Record(vs), PLAIN, order).Ok?
    requires |Marshal(Struct(fs), Record(vs), PLAIN, order).value| < w.Modulus()
    ensures var body := Marshal(Struct(fs), Record(vs), PLAIN, order).value;
      Marshal(Struct(fs), Record(vs), LenTag(w, false), order) == Ok(UintBytes(order, w.Size(), |body|) + body)
  {
    var tag := LenTag(w, false);
    PrefixFits(w, |Marshal(Struct(fs), Record(vs), PLAIN, order).value|, order);
    assert Marshal(Struct(fs), Record(vs), PLAIN, order) == MarshalFields(fs, vs, order);
    assert Marshal(Struct(fs), Record(vs), tag, order) == MarshalStruct(fs, vs, tag, order);
  }

  // An optional struct is written like a struct that is there, and not at all when it is absent.
  lemma OptionalOnWire(fs: Fields, vs: seq<Value>, tag: Tag, order: ByteOrder)
    requires HaveTypes(fs, vs) && tag.optional && !tag.Rejected()
    ensures Marshal(Pointer(Struct(fs)), Nil, tag, order) == Ok([])
    ensures Marshal(Pointer(Struct(fs)), Ref(Record(vs)), tag, order)
         == Marshal(Struct(fs), Record(vs), tag.(optional := false), order)
  {
  }

  // ---- Input that ends early ----

  // An input that is empty where an integer begins is at its end; one that stops inside it was cut.
  lemma ShortInteger(k: IntKind, bs: seq<byte>, order: ByteOrder)
    requires |bs| < k.Size()
    ensures Unmarshal(Uint(k), PLAIN, bs, order) == Failed(if bs == [] then EOF else UnexpectedEOF, [])
  {
  }

  // The same for the characters that a prefix announces.
  lemma ShortString(w: Width, n: nat, bs: seq<byte>, order: ByteOrder)
    requires |bs| < n < w.Modulus()
    ensures Unmarshal(String, LenTag(w, false), UintBytes(order, w.Size(), n) + bs, order)
         == Failed(if bs == [] then EOF else UnexpectedEOF, [])
  {
    PrefixFits(w, n, order);
    PrefixRoundTrip(w, n, order, bs);
    ShortFrame(w, UintBytes(order, w.Size(), n) + bs, n, bs, order);
  }

  lemma ShortFrame(w: Width, input: seq<byte>, n: nat, bs: seq<byte>, order: ByteOrder)
    requires |bs| < n && ReadUint(w.Size(), input, order) == Got(n, bs)
    ensures Unmarshal(String, LenTag(w, false), input, order) == Failed(if bs == [] then EOF else UnexpectedEOF, [])
  {
    FrameRead(w, input, order, n, bs);
  }

  // A slice of integers up to the end of the input: as many as there are, unless the last one is cut.
  lemma {:induction false} IntegersToTheEnd(k: IntKind, bs: seq<byte>, order: ByteOrder)
    ensures var d := Unmarshal(Slice(Uint(k)), PLAIN, bs, order);
      if |bs| % k.Size() == 0 then d.Got? && d.rest == [] && |d.value.elems| * k.Size() == |bs|
      else d == Failed(UnexpectedEOF, [])
  {
    var size := k.Size();
    if |bs| < size {
      ShortInteger(k, bs, order);
    } else {
      var next := Unmarshal(Slice(Uint(k)), PLAIN, bs[size..], order);
      IntegersToTheEnd(k, bs[size..], order);
      OneMore(|bs| - size, size, if next.Got? then |next.value.elems| else 0);
      IntegerThenRest(k, bs, order);
    }
  }

  lemma IntegerThenRest(k: IntKind, bs: seq<byte>, order: ByteOrder)
    requires |bs| >= k.Size()
    ensures var d, next := Unmarshal(Slice(Uint(k)), PLAIN, bs, order),
            Unmarshal(Slice(Uint(k)), PLAIN, bs[k.Size()..], order);
      if next.Failed? then d == next
      else d.Got? && d.rest == next.rest && |d.value.elems| == |next.value.elems| + 1
  {
    var first := Unmarshal(Uint(k), PLAIN, bs, order);
    assert first.Got? && first.rest == bs[k.Size()..];
  }

  lemma OneMore(n: nat, size: nat, count: nat)
    requires size in {1, 2, 4, 8}
    ensures (n + size) % size == n % size && (count + 1) * size == count * size + size
  {
    if size == 1 {
      assert (n + 1) % 1 == n % 1 == 0;
    } else if size == 2 {
      assert (n + 2) % 2 == n % 2;
    } else if size == 4 {
      assert (n + 4) % 4 == n % 4;
    } else {
      assert (n + 8) % 8 == n % 8;
    }
  }

  // An optional struct is absent exactly when the input is at its end where the struct would begin or, the source takes
  // it so, between two of its fields; any other error stands.
  lemma OptionalRead(fs: Fields, tag: Tag, bs: seq<byte>, order: ByteOrder)
    requires tag.optional && !tag.Rejected()
    ensures Unmarshal(Pointer(Struct(fs)), tag, bs, order)
         == match Unmarshal(Struct(fs), tag.(optional := false), bs, order)
            case Got(v, r) => Got(Ref(v), r)
            case Failed(x, r) => if x == EOF then Got(Nil, r) else Failed(x, r)
  {
  }

  // ---- Errors ----

  // Both prefixes together are refused in any case, before anything is read or written.
  lemma BothPrefixes(t: GoType, v: Value, tag: Tag, bs: seq<byte>, order: ByteOrder)
    requires HasType(t, v) && tag.len.Some? && tag.count.Some?
    ensures Marshal(t, v, tag, order) == Err(InvalidStructTag)
    ensures Unmarshal(t, tag, bs, order) == Failed(InvalidStructTag, bs)
  {
  }

  // Only pointers are optional, all pointers are, and they point to structs.
  lemma PointerErrors(t: GoType, v: Value, tag: Tag, bs: seq<byte>, order: ByteOrder)
    requires HasType(t, v) && !(tag.len.Some? && tag.count.Some?)
    ensures tag.optional && !t.Pointer? ==>
              Marshal(t, v, tag, order) == Err(OptionalNonPointer)
              && Unmarshal(t, tag, bs, order) == Failed(OptionalNonPointer, bs)
    ensures !tag.optional && t.Pointer? ==>
              Marshal(t, v, tag, order) == Err(NonOptionalPointer)
              && Unmarshal(t, tag, bs, order) == Failed(NonOptionalPointer, bs)
    ensures tag.optional && t.Pointer? && !t.target.Struct? ==>
              (v.Ref? ==> Marshal(t, v, tag, order) == Err(BadPointerTarget))
              && Unmarshal(t, tag, bs, order) == Failed(BadPointerTarget, bs)
  {
  }

  // A pointer field is the last one of its struct and points to a struct.
  lemma PointerFieldErrors(tag: Tag, t: GoType, rest: Fields, vs: seq<Value>, bs: seq<byte>, order: ByteOrder)
    requires t.Pointer? && HaveTypes(Field(tag, t, rest), vs)
    ensures var fs := Field(tag, t, rest);
      && (rest.Field? ==>
            Marshal(Struct(fs), Record(vs), PLAIN, order) == Err(MisplacedPointer)
            && Unmarshal(Struct(fs), PLAIN, bs, order) == Failed(MisplacedPointer, bs))
      && (rest.End? && !t.target.Struct? ==>
            Marshal(Struct(fs), Record(vs), PLAIN, order) == Err(BadPointerTarget)
            && Unmarshal(Struct(fs), PLAIN, bs, order) == Failed(BadPointerTarget, bs))
  {
    var fs := Field(tag, t, rest);
    assert Marshal(Struct(fs), Record(vs), PLAIN, order) == MarshalFields(fs, vs, order);
    assert rest.Field? || !t.target.Struct? ==> UnmarshalFields(fs, bs, order).Failed?;
    assert Unmarshal(Struct(fs), PLAIN, bs, order) == UnmarshalStruct(fs, PLAIN, bs, order);
  }

  // Values of other kinds are neither written nor read, alone or as elements.
  lemma UnsupportedKinds(e: GoType, vs: seq<Value>, bs: seq<byte>, order: ByteOrder)
    requires !e.Struct? && !Fixed(e) && forall x <- vs :: HasType(e, x)
    ensures Marshal(OtherKind, Opaque, PLAIN, order) == Err(UnsupportedType)
    ensures Unmarshal(OtherKind, PLAIN, bs, order) == Failed(UnsupportedType, bs)
    ensures Marshal(Array(|vs|, e), Elems(vs), PLAIN, order) == Err(UnsupportedType)
    ensures Marshal(Slice(e), Elems(vs), PLAIN, order) == Err(UnsupportedType)
  {
  }
}
