/**
 Messages cut short. A decoded value does not depend on the bytes after it, so no encoding, cut anywhere, decodes to a
 value.
 */
module CodecCuts {
  import opened Common
  import opened Schema
  import opened Integers
  import opened Encode
  import opened Decode
  import opened CodecProofs
  import opened CodecExact

  // ---- What a closed schema reads is unaffected by what follows ----

  lemma ReadExtends(n: nat, bs: seq<byte>, s: seq<byte>)
    ensures var d := ReadFull(n, bs);
      d.Got? ==> ReadFull(n, bs + s) == Got(d.value, d.rest + s)
  {
    if 0 < n <= |bs| {
      assert (bs + s)[..n] == bs[..n] && (bs + s)[n..] == bs[n..] + s;
    }
  }

  lemma FrameExtends(w: Width, bs: seq<byte>, s: seq<byte>, order: ByteOrder)
    ensures var d := ReadFrame(w, bs, order);
      d.Got? ==> ReadFrame(w, bs + s, order) == Got(d.value, d.rest + s)
  {
    ReadExtends(w.Size(), bs, s);
    var d := ReadUint(w.Size(), bs, order);
    if d.Got? { ReadExtends(d.value, d.rest, s); }
  }

  lemma {:induction false} DecodeExtends(t: GoType, tag: Tag, bs: seq<byte>, s: seq<byte>, order: ByteOrder)
    requires Closed(t, tag)
    ensures var d := Unmarshal(t, tag, bs, order);
      d.Got? ==> Unmarshal(t, tag, bs + s, order) == Got(d.value, d.rest + s)
    decreases t, 2
  {
    match t
    case Uint(k) => ReadExtends(k.Size(), bs, s);
    case String => FrameExtends(tag.len.value, bs, s, order);
    case Array(n, e) => CountExtends(e, n, bs, s, order);
    case Slice(e) => SliceExtends(e, tag, bs, s, order);
    case Struct(fs) =>
      if tag.len.Some? {
        FrameExtends(tag.len.value, bs, s, order);
      } else {
        FieldsExtend(fs, bs, s, order);
      }
    case _ =>
  }

  lemma {:induction false} SliceExtends(e: GoType, tag: Tag, bs: seq<byte>, s: seq<byte>, order: ByteOrder)
    requires Closed(e, PLAIN) && (tag.len.Some? || tag.count.Some?)
    ensures var d := UnmarshalSlice(e, tag, bs, order);
      d.Got? ==> UnmarshalSlice(e, tag, bs + s, order) == Got(d.value, d.rest + s)
    decreases e, 4
  {
    if tag.len.Some? {
      FrameExtends(tag.len.value, bs, s, order);
    } else {
      var size := tag.count.value.Size();
      ReadExtends(size, bs, s);
      var d := ReadUint(size, bs, order);
      if d.Got? {
        assert ReadUint(size, bs + s, order) == Got(d.value, d.rest + s);
        CountExtends(e, d.value, d.rest, s, order);
      }
    }
  }

  lemma {:induction false} CountExtends(e: GoType, n: nat, bs: seq<byte>, s: seq<byte>, order: ByteOrder)
    requires Closed(e, PLAIN)
    ensures var d := UnmarshalCount(e, n, bs, order);
      d.Got? ==> UnmarshalCount(e, n, bs + s, order) == Got(d.value, d.rest + s)
    decreases e, 3, n
  {
    if n > 0 {
      DecodeExtends(e, PLAIN, bs, s, order);
      var d := Unmarshal(e, PLAIN, bs, order);
      if d.Got? { CountExtends(e, n - 1, d.rest, s, order); }
    }
  }

  lemma {:induction false} FieldsExtend(fs: Fields, bs: seq<byte>, s: seq<byte>, order: ByteOrder)
    requires ClosedFields(fs)
    ensures var d := UnmarshalFields(fs, bs, order);
      d.Got? ==> UnmarshalFields(fs, bs + s, order) == Got(d.value, d.rest + s)
    decreases fs, 2
  {
    if fs.Field? {
      DecodeExtends(fs.typ, fs.tag, bs, s, order);
      var d := Unmarshal(fs.typ, fs.tag, bs, order);
      if d.Got? { FieldsExtend(fs.rest, d.rest, s, order); }
    }
  }

  // ---- A well-formed schema fails for want of bytes only ----

  predicate Short<T>(d: Read<T>) { d.Failed? ==> d.error == EOF || d.error == UnexpectedEOF }

  lemma {:induction false} OnlyShortInputFails(t: GoType, tag: Tag, bs: seq<byte>, order: ByteOrder)
    requires Open(t, tag)
    ensures Short(Unmarshal(t, tag, bs, order))
    decreases t, 2
  {
    match t
    case Array(n, e) => CountFailsShort(e, n, bs, order);
    case Slice(e) => SliceFailsShort(e, tag, bs, order);
    case Struct(fs) =>
      ClosedIsOpen(fs);
      StructFailsShort(fs, tag, bs, order);
    case Pointer(e) => StructFailsShort(e.fields, tag, bs, order);
    case _ =>
  }

  lemma {:induction false} SliceFailsShort(e: GoType, tag: Tag, bs: seq<byte>, order: ByteOrder)
    requires Closed(e, PLAIN) && ((tag.count.Some? && tag.len.None?) || Wide(e, PLAIN))
    ensures Short(UnmarshalSlice(e, tag, bs, order))
    decreases e, 4
  {
    if tag.len.Some? {
      var d := ReadFrame(tag.len.value, bs, order);
      if d.Got? { FrameFailsShort(e, d.value, order); }
    } else if tag.count.Some? {
      var d := ReadUint(tag.count.value.Size(), bs, order);
      if d.Got? { CountFailsShort(e, d.value, d.rest, order); }
    } else {
      RestFailsShort(e, bs, order);
    }
  }

  lemma {:induction false} CountFailsShort(e: GoType, n: nat, bs: seq<byte>, order: ByteOrder)
    requires Closed(e, PLAIN)
    ensures Short(UnmarshalCount(e, n, bs, order))
    decreases e, 3, n
  {
    if n > 0 {
      OnlyShortInputFails(e, PLAIN, bs, order);
      var d := Unmarshal(e, PLAIN, bs, order);
      if d.Got? { CountFailsShort(e, n - 1, d.rest, order); }
    }
  }

  lemma {:induction false} FrameFailsShort(e: GoType, bs: seq<byte>, order: ByteOrder)
    requires Closed(e, PLAIN) && Wide(e, PLAIN)
    ensures Short(UnmarshalFrame(e, bs, order))
    decreases e, 3, |bs|
  {
    if bs != [] {
      OnlyShortInputFails(e, PLAIN, bs, order);
      DecodeAdvances(e, PLAIN, bs, order);
      var d := Unmarshal(e, PLAIN, bs, order);
      if d.Got? { FrameFailsShort(e, d.rest, order); }
    }
  }

  lemma {:induction false} RestFailsShort(e: GoType, bs: seq<byte>, order: ByteOrder)
    requires Closed(e, PLAIN) && Wide(e, PLAIN)
    ensures Short(UnmarshalRest(e, bs, order))
    decreases e, 3, |bs|
  {
    OnlyShortInputFails(e, PLAIN, bs, order);
    DecodeAdvances(e, PLAIN, bs, order);
    var d := Unmarshal(e, PLAIN, bs, order);
    if d.Got? { RestFailsShort(e, d.rest, order); }
  }

  lemma {:induction false} StructFailsShort(fs: Fields, tag: Tag, bs: seq<byte>, order: ByteOrder)
    requires OpenFields(fs)
    ensures Short(UnmarshalStruct(fs, tag, bs, order))
    decreases fs, 4
  {
    if tag.len.Some? {
      var d := ReadFrame(tag.len.value, bs, order);
      if d.Got? { FieldsFailShort(fs, d.value, order); }
    } else {
      FieldsFailShort(fs, bs, order);
    }
  }

  lemma {:induction false} FieldsFailShort(fs: Fields, bs: seq<byte>, order: ByteOrder)
    requires OpenFields(fs)
    ensures Short(UnmarshalFields(fs, bs, order))
    decreases fs, 3
  {
    if fs.Field? {
      if fs.typ.Pointer? { PointerIsLast(fs); }
      OnlyShortInputFails(fs.typ, fs.tag, bs, order);
      var d := Unmarshal(fs.typ, fs.tag, bs, order);
      if d.Got? { FieldsFailShort(fs.rest, d.rest, order); }
    }
  }

  // ---- Cut messages ----

  // The encoding of a value, cut anywhere, decodes to nothing: the decoder asks for more bytes.
  lemma CutNeverDecodes(t: GoType, v: Value, tag: Tag, order: ByteOrder, q: nat)
    requires Closed(t, tag) && HasType(t, v) && Fits(t, v, tag, order) && Marshal(t, v, tag, order).Ok?
    requires q < |Marshal(t, v, tag, order).value|
    ensures var d := Unmarshal(t, tag, Marshal(t, v, tag, order).value[..q], order);
      d.Failed? && (d.error == EOF || d.error == UnexpectedEOF)
  {
    var bs := Marshal(t, v, tag, order).value;
    OnlyShortInputFails(t, tag, bs[..q], order);
    DecodeExtends(t, tag, bs[..q], bs[q..], order);
    assert bs[..q] + bs[q..] == bs && bs + [] == bs;
    DecodeEncoded(t, v, tag, order, []);
  }

  // No encoding begins with another one: two values of a schema whose encodings agree that far are the same.
  lemma PrefixFree(t: GoType, v: Value, w: Value, tag: Tag, order: ByteOrder)
    requires Closed(t, tag) && HasType(t, v) && HasType(t, w) && Fits(t, v, tag, order) && Fits(t, w, tag, order)
    requires Marshal(t, v, tag, order).Ok? && Marshal(t, w, tag, order).Ok?
    requires Marshal(t, v, tag, order).value <= Marshal(t, w, tag, order).value
    ensures v == w
  {
    var a, b := Marshal(t, v, tag, order).value, Marshal(t, w, tag, order).value;
    assert a + b[|a|..] == b && b + [] == b;
    DecodeEncoded(t, v, tag, order, b[|a|..]);
    DecodeEncoded(t, w, tag, order, []);
  }
}
