/** What the printer and the parser promise each other. */
module CodecProofs {
  import opened Common
  import opened Schema
  import opened Integers
  import opened Encode
  import opened Decode

  // A value the encoder's prefixes can describe: no length or count that wraps, no NUL inside a `nullterm`
  // string. The encoder writes values that do not fit without complaint.
  predicate Fits(t: GoType, v: Value, tag: Tag, order: ByteOrder)
    requires HasType(t, v)
    decreases t, 2
  {
    if tag.optional then
      t.Pointer? && t.target.Struct? && v.Ref? ==>
        (assert HasType(t.target, v.target); FitsStruct(t.target.fields, v.target.fields, tag, order))
    else match t
      case Array(_, e) => FitsElems(e, v.elems, order)
      case Slice(e) =>
        && FitsElems(e, v.elems, order)
        && (tag.len.Some? ==>
              MarshalElems(e, v.elems, order).Ok? ==>
                |MarshalElems(e, v.elems, order).value| < tag.len.value.Modulus())
        && (tag.len.None? && tag.count.Some? ==> |v.elems| < tag.count.value.Modulus())
      case String =>
        && (tag.len.Some? ==> |Terminated(v.bytes, tag)| < tag.len.value.Modulus())
        && (tag.nullterm ==> 0 !in v.bytes)
      case Struct(fs) => FitsStruct(fs, v.fields, tag, order)
      case _ => true
  }

  predicate FitsElems(e: GoType, vs: seq<Value>, order: ByteOrder)
    requires forall x <- vs :: HasType(e, x)
    decreases e, 3, |vs|
  {
    vs != [] ==> Fits(e, vs[0], PLAIN, order) && FitsElems(e, vs[1..], order)
  }

  predicate FitsStruct(fs: Fields, vs: seq<Value>, tag: Tag, order: ByteOrder)
    requires HaveTypes(fs, vs)
    decreases fs, 4
  {
    && FitsFields(fs, vs, order)
    && (tag.len.Some? && MarshalFields(fs, vs, order).Ok? ==>
          |MarshalFields(fs, vs, order).value| < tag.len.value.Modulus())
  }

  predicate FitsFields(fs: Fields, vs: seq<Value>, order: ByteOrder)
    requires HaveTypes(fs, vs)
    decreases fs, 3
  {
    fs.Field? ==> Fits(fs.typ, vs[0], fs.tag, order) && FitsFields(fs.rest, vs[1..], order)
  }

  // ---- The encoder never refuses a well-formed schema ----

  lemma {:induction false} MarshalSucceeds(t: GoType, v: Value, tag: Tag, order: ByteOrder)
    requires Open(t, tag) && HasType(t, v)
    ensures Marshal(t, v, tag, order).Ok?
    decreases t, 2
  {
    match t
    case Array(_, e) => MarshalElemsSucceeds(e, v.elems, order);
    case Slice(e) => MarshalElemsSucceeds(e, v.elems, order);
    case Struct(fs) =>
      ClosedIsOpen(fs);
      MarshalFieldsSucceeds(fs, v.fields, order);
    case Pointer(e) =>
      if v.Ref? {
        assert HasType(e, v.target);
        MarshalFieldsSucceeds(e.fields, v.target.fields, order);
      }
    case _ =>
  }

  lemma {:induction false} MarshalElemsSucceeds(e: GoType, vs: seq<Value>, order: ByteOrder)
    requires Encodable(e) && Closed(e, PLAIN) && forall x <- vs :: HasType(e, x)
    ensures MarshalElems(e, vs, order).Ok?
    decreases e, 3, |vs|
  {
    if vs != [] {
      MarshalSucceeds(e, vs[0], PLAIN, order);
      MarshalElemsSucceeds(e, vs[1..], order);
    }
  }

  lemma {:induction false} MarshalFieldsSucceeds(fs: Fields, vs: seq<Value>, order: ByteOrder)
    requires OpenFields(fs) && HaveTypes(fs, vs)
    ensures MarshalFields(fs, vs, order).Ok?
    decreases fs, 3
  {
    if fs.Field? {
      MarshalSucceeds(fs.typ, vs[0], fs.tag, order);
      MarshalFieldsSucceeds(fs.rest, vs[1..], order);
      if fs.typ.Pointer? { PointerIsLast(fs); }
    }
  }

  lemma PointerIsLast(fs: Fields)
    requires OpenFields(fs) && fs.Field? && (fs.typ.Pointer? || fs.tag.optional)
    ensures fs.typ.Pointer? && fs.typ.target.Struct? && fs.tag.optional && fs.rest.End?
    ensures Open(fs.typ, fs.tag) && !ClosedFields(fs)
  {
    assert !Closed(fs.typ, fs.tag);
  }

  lemma {:induction false} ClosedIsOpen(fs: Fields)
    ensures ClosedFields(fs) ==> OpenFields(fs)
  {
    if fs.Field? { ClosedIsOpen(fs.rest); }
  }

  // ---- Reading back a prefix and a frame ----

  lemma ReadAppended(b: seq<byte>, trail: seq<byte>)
    ensures ReadFull(|b|, b + trail) == Got(b, trail)
  {
    if b == [] {
      assert b + trail == trail;
    } else {
      assert (b + trail)[..|b|] == b && (b + trail)[|b|..] == trail;
    }
  }

  lemma PrefixRoundTrip(w: Width, n: nat, order: ByteOrder, trail: seq<byte>)
    ensures ReadUint(w.Size(), Prefix(w, n, order) + trail, order) == Got(n % w.Modulus(), trail)
  {
    WidthModulus(w);
    UintRoundTrip(order, w.Size(), n % w.Modulus());
    ReadAppended(Prefix(w, n, order), trail);
  }

  lemma FrameRead(w: Width, bs: seq<byte>, order: ByteOrder, n: nat, rest: seq<byte>)
    requires ReadUint(w.Size(), bs, order) == Got(n, rest)
    ensures ReadFrame(w, bs, order) == ReadFull(n, rest)
  {
  }

  lemma FrameRoundTrip(w: Width, body: seq<byte>, order: ByteOrder, trail: seq<byte>)
    requires |body| < w.Modulus()
    ensures ReadFrame(w, Prefix(w, |body|, order) + body + trail, order) == Got(body, trail)
  {
    var p := Prefix(w, |body|, order);
    assert p + body + trail == p + (body + trail);
    PrefixRoundTrip(w, |body|, order, body + trail);
    FrameRead(w, p + (body + trail), order, |body|, body + trail);
    ReadAppended(body, trail);
  }

  lemma {:induction false} UpToNulWhole(s: seq<byte>, trail: seq<byte>)
    requires 0 !in s
    ensures UpToNul(s) == s
    ensures UpToNul(s + [0] + trail) == s
  {
    if s == [] {
      assert s + [0] + trail == [0] + trail;
    } else {
      assert (s + [0] + trail)[1..] == s[1..] + [0] + trail;
      UpToNulWhole(s[1..], trail);
    }
  }

  // ---- Decoding from an exhausted reader ----

  // A type that always takes a byte reports EOF on an empty reader; any other closed type reads as empty.
  lemma {:induction false} DecodeNothing(t: GoType, tag: Tag, order: ByteOrder)
    requires Open(t, tag) && !tag.optional
    ensures Wide(t, tag) ==> Unmarshal(t, tag, [], order) == Failed(EOF, [])
    ensures Closed(t, tag) && !Wide(t, tag) ==> Unmarshal(t, tag, [], order).Got?
    decreases t, 1
  {
    match t
    case Array(n, e) =>
      DecodeNothingCount(e, n, order);
    case Struct(fs) =>
      if tag.len.None? {
        ClosedIsOpen(fs);
        DecodeNothingFields(fs, order);
      }
    case _ =>
  }

  lemma {:induction false} DecodeNothingCount(e: GoType, n: nat, order: ByteOrder)
    requires Closed(e, PLAIN)
    ensures n > 0 && Wide(e, PLAIN) ==> UnmarshalCount(e, n, [], order) == Failed(EOF, [])
    ensures n == 0 || !Wide(e, PLAIN) ==> UnmarshalCount(e, n, [], order).Got?
    decreases e, 2, n
  {
    if n > 0 {
      DecodeNothing(e, PLAIN, order);
      DecodeNothingCount(e, n - 1, order);
    }
  }

  lemma {:induction false} DecodeNothingFields(fs: Fields, order: ByteOrder)
    requires OpenFields(fs)
    ensures AnyWide(fs) ==> UnmarshalFields(fs, [], order) == Failed(EOF, [])
    ensures ClosedFields(fs) && !AnyWide(fs) ==> UnmarshalFields(fs, [], order).Got?
    decreases fs
  {
    if fs.Field? {
      DecodeNothingFields(fs.rest, order);
      if fs.tag.optional {
        PointerIsLast(fs);
        assert !Wide(fs.typ, fs.tag) && !AnyWide(fs.rest);
      } else {
        var closed := Closed(fs.typ, fs.tag);
        assert Open(fs.typ, fs.tag) && !fs.typ.Pointer?;
        DecodeNothing(fs.typ, fs.tag, order);
        assert Unmarshal(fs.typ, fs.tag, [], order).rest == [];
        assert fs.rest.Field? ==> Closed(fs.typ, fs.tag);
      }
    }
  }

  // ---- Encoding then decoding ----

  lemma {:induction false} DecodeEncoded(t: GoType, v: Value, tag: Tag, order: ByteOrder, trail: seq<byte>)
    requires Open(t, tag) && HasType(t, v) && Fits(t, v, tag, order)
    requires Closed(t, tag) || trail == []
    requires Marshal(t, v, tag, order).Ok?
    ensures Unmarshal(t, tag, Marshal(t, v, tag, order).value + trail, order) == Got(v, trail)
    decreases t, 2
  {
    var bytes := Marshal(t, v, tag, order).value;
    match t
    case Uint(k) =>
      UintRoundTrip(order, k.Size(), v.n);
      ReadAppended(bytes, trail);
    case String =>
      DecodeEncodedString(v.bytes, tag, order, trail);
    case Array(n, e) =>
      DecodeEncodedCount(e, v.elems, order, trail);
    case Slice(e) =>
      DecodeEncodedSlice(e, v, tag, order, trail);
    case Struct(fs) =>
      ClosedIsOpen(fs);
      DecodeEncodedStruct(fs, v.fields, tag, order, trail);
    case Pointer(e) =>
      if v.Nil? {
        assert bytes + trail == [];
        if tag.len.None? { DecodeNothingFields(e.fields, order); }
      } else {
        assert HasType(e, v.target);
        DecodeEncodedStruct(e.fields, v.target.fields, tag, order, trail);
      }
  }

  lemma DecodeEncodedString(s: seq<byte>, tag: Tag, order: ByteOrder, trail: seq<byte>)
    requires tag.len.Some? && |Terminated(s, tag)| < tag.len.value.Modulus()
    requires tag.nullterm ==> 0 !in s
    ensures UnmarshalString(tag, MarshalString(s, tag, order) + trail, order) == Got(Text(s), trail)
  {
    FrameRoundTrip(tag.len.value, Terminated(s, tag), order, trail);
    if tag.nullterm {
      UpToNulWhole(s, []);
      assert s + [0] + [] == s + [0];
    }
  }

  lemma {:induction false} DecodeEncodedSlice(e: GoType, v: Value, tag: Tag, order: ByteOrder, trail: seq<byte>)
    requires Open(Slice(e), tag) && !tag.optional && HasType(Slice(e), v) && Fits(Slice(e), v, tag, order)
    requires Closed(Slice(e), tag) || trail == []
    requires MarshalSlice(e, v.elems, tag, order).Ok?
    ensures UnmarshalSlice(e, tag, MarshalSlice(e, v.elems, tag, order).value + trail, order) == Got(v.elems, trail)
    decreases e, 5
  {
    var body := MarshalElems(e, v.elems, order).value;
    if tag.len.Some? {
      FrameRoundTrip(tag.len.value, body, order, trail);
      DecodeEncodedFrame(e, v.elems, order);
    } else if tag.count.Some? {
      DecodeEncodedCounted(e, v.elems, tag, order, trail);
    } else {
      assert body + trail == body;
      DecodeEncodedRest(e, v.elems, order);
    }
  }

  lemma {:induction false} DecodeEncodedCounted(e: GoType, vs: seq<Value>, tag: Tag, order: ByteOrder, trail: seq<byte>)
    requires tag.len.None? && tag.count.Some? && Closed(e, PLAIN) && (forall x <- vs :: HasType(e, x))
    requires FitsElems(e, vs, order) && |vs| < tag.count.value.Modulus()
    requires MarshalSlice(e, vs, tag, order).Ok? && MarshalElems(e, vs, order).Ok?
    ensures UnmarshalSlice(e, tag, MarshalSlice(e, vs, tag, order).value + trail, order) == Got(vs, trail)
    decreases e, 4, |vs| + 1
  {
    var body := MarshalElems(e, vs, order).value;
    MarshalCounted(e, vs, tag, order);
    UnmarshalCounted(e, tag, |vs|, body, order, trail);
    DecodeEncodedCount(e, vs, order, trail);
  }

  lemma MarshalCounted(e: GoType, vs: seq<Value>, tag: Tag, order: ByteOrder)
    requires tag.len.None? && tag.count.Some? && (forall x <- vs :: HasType(e, x)) && MarshalElems(e, vs, order).Ok?
    ensures MarshalSlice(e, vs, tag, order)
         == Ok(Prefix(tag.count.value, |vs|, order) + MarshalElems(e, vs, order).value)
  {
  }

  lemma UnmarshalCounted(e: GoType, tag: Tag, n: nat, body: seq<byte>, order: ByteOrder, trail: seq<byte>)
    requires tag.len.None? && tag.count.Some? && n < tag.count.value.Modulus()
    ensures UnmarshalSlice(e, tag, Prefix(tag.count.value, n, order) + body + trail, order)
         == UnmarshalCount(e, n, body + trail, order)
  {
    CountedRoundTrip(tag.count.value, n, body, order, trail);
    CountThenElems(e, tag, Prefix(tag.count.value, n, order) + body + trail, n, body + trail, order);
  }

  lemma CountThenElems(e: GoType, tag: Tag, bs: seq<byte>, n: nat, rest: seq<byte>, order: ByteOrder)
    requires tag.len.None? && tag.count.Some? && ReadUint(tag.count.value.Size(), bs, order) == Got(n, rest)
    ensures UnmarshalSlice(e, tag, bs, order) == UnmarshalCount(e, n, rest, order)
  {
  }

  lemma CountedRoundTrip(k: Width, n: nat, body: seq<byte>, order: ByteOrder, trail: seq<byte>)
    ensures ReadUint(k.Size(), Prefix(k, n, order) + body + trail, order) == Got(n % k.Modulus(), body + trail)
  {
    assert Prefix(k, n, order) + body + trail == Prefix(k, n, order) + (body + trail);
    PrefixRoundTrip(k, n, order, body + trail);
  }

  lemma {:induction false} DecodeEncodedCount(e: GoType, vs: seq<Value>, order: ByteOrder, trail: seq<byte>)
    requires Closed(e, PLAIN) && (forall x <- vs :: HasType(e, x)) && FitsElems(e, vs, order)
    requires MarshalElems(e, vs, order).Ok?
    ensures UnmarshalCount(e, |vs|, MarshalElems(e, vs, order).value + trail, order) == Got(vs, trail)
    decreases e, 4, |vs|
  {
    if vs == [] {
      assert [] + trail == trail;
    } else {
      var head := Marshal(e, vs[0], PLAIN, order).value;
      var tail := MarshalElems(e, vs[1..], order).value;
      assert head + tail + trail == head + (tail + trail);
      DecodeEncoded(e, vs[0], PLAIN, order, tail + trail);
      DecodeEncodedCount(e, vs[1..], order, trail);
      assert [vs[0]] + vs[1..] == vs;
    }
  }

  lemma {:induction false} DecodeEncodedFrame(e: GoType, vs: seq<Value>, order: ByteOrder)
    requires Closed(e, PLAIN) && Wide(e, PLAIN) && (forall x <- vs :: HasType(e, x)) && FitsElems(e, vs, order)
    requires MarshalElems(e, vs, order).Ok?
    ensures UnmarshalFrame(e, MarshalElems(e, vs, order).value, order) == Got(vs, [])
    decreases e, 4, |vs|
  {
    if vs != [] {
      var tail := MarshalElems(e, vs[1..], order).value;
      EncodedIsWide(e, vs[0], order);
      DecodeEncoded(e, vs[0], PLAIN, order, tail);
      DecodeEncodedFrame(e, vs[1..], order);
      assert [vs[0]] + vs[1..] == vs;
    }
  }

  lemma {:induction false} DecodeEncodedRest(e: GoType, vs: seq<Value>, order: ByteOrder)
    requires Closed(e, PLAIN) && Wide(e, PLAIN) && (forall x <- vs :: HasType(e, x)) && FitsElems(e, vs, order)
    requires MarshalElems(e, vs, order).Ok?
    ensures UnmarshalRest(e, MarshalElems(e, vs, order).value, order) == Got(vs, [])
    decreases e, 4, |vs|
  {
    if vs == [] {
      DecodeNothing(e, PLAIN, order);
    } else {
      var tail := MarshalElems(e, vs[1..], order).value;
      EncodedIsWide(e, vs[0], order);
      DecodeEncoded(e, vs[0], PLAIN, order, tail);
      DecodeEncodedRest(e, vs[1..], order);
      assert [vs[0]] + vs[1..] == vs;
    }
  }

  lemma {:induction false} EncodedIsWide(e: GoType, v: Value, order: ByteOrder)
    requires Closed(e, PLAIN) && Wide(e, PLAIN) && HasType(e, v) && Fits(e, v, PLAIN, order)
    requires Marshal(e, v, PLAIN, order).Ok?
    ensures Marshal(e, v, PLAIN, order).value != []
    decreases e, 3
  {
    var bytes := Marshal(e, v, PLAIN, order).value;
    if bytes == [] {
      assert bytes + [] == [];
      DecodeNothing(e, PLAIN, order);
      DecodeEncoded(e, v, PLAIN, order, []);
    }
  }

  lemma {:induction false} DecodeEncodedStruct(fs: Fields, vs: seq<Value>, tag: Tag, order: ByteOrder, trail: seq<byte>)
    requires OpenFields(fs) && HaveTypes(fs, vs) && FitsStruct(fs, vs, tag, order)
    requires tag.len.Some? || ClosedFields(fs) || trail == []
    requires MarshalStruct(fs, vs, tag, order).Ok?
    ensures UnmarshalStruct(fs, tag, MarshalStruct(fs, vs, tag, order).value + trail, order) == Got(Record(vs), trail)
    decreases fs, 4
  {
    var body := MarshalFields(fs, vs, order).value;
    if tag.len.Some? {
      FrameRoundTrip(tag.len.value, body, order, trail);
      DecodeEncodedFields(fs, vs, order, []);
      assert body + [] == body;
    } else {
      DecodeEncodedFields(fs, vs, order, trail);
    }
  }

  lemma {:induction false} DecodeEncodedFields(fs: Fields, vs: seq<Value>, order: ByteOrder, trail: seq<byte>)
    requires OpenFields(fs) && HaveTypes(fs, vs) && FitsFields(fs, vs, order)
    requires ClosedFields(fs) || trail == []
    requires MarshalFields(fs, vs, order).Ok?
    ensures UnmarshalFields(fs, MarshalFields(fs, vs, order).value + trail, order) == Got(vs, trail)
    decreases fs, 3
  {
    match fs
    case End => assert [] + trail == trail;
    case Field(tag, t, rest) =>
      var head := Marshal(t, vs[0], tag, order).value;
      var tail := MarshalFields(rest, vs[1..], order).value;
      assert head + tail + trail == head + (tail + trail);
      DecodeEncoded(t, vs[0], tag, order, tail + trail);
      if t.Pointer? { PointerIsLast(fs); }
      DecodeEncodedFields(rest, vs[1..], order, trail);
      assert [vs[0]] + vs[1..] == vs;
  }
}
