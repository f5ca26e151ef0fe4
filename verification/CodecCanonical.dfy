/** Decoding then encoding: for schemas without slack, the bytes read are the only encoding of the value. */
module CodecCanonical {
  import opened Common
  import opened Schema
  import opened Integers
  import opened Encode
  import opened Decode
  import opened CodecExact

  // Schemas whose decoder drops nothing: no `nullterm` string (cut at its first NUL) and no length-prefixed
  // struct (what is left over in its frame is discarded).
  predicate Tight(t: GoType, tag: Tag) {
    match t
    case String => !tag.nullterm
    case Array(_, e) => Tight(e, PLAIN)
    case Slice(e) => Tight(e, PLAIN)
    case Struct(fs) => tag.len.None? && TightFields(fs)
    case Pointer(e) => tag.len.None? && Tight(e, PLAIN)
    case _ => true
  }

  predicate TightFields(fs: Fields) {
    fs.Field? ==> Tight(fs.typ, fs.tag) && TightFields(fs.rest)
  }

  lemma PrefixCanonical(w: Width, bs: seq<byte>, order: ByteOrder)
    requires ReadUint(w.Size(), bs, order).Got?
    ensures var d := ReadUint(w.Size(), bs, order);
            d.value < w.Modulus() && Prefix(w, d.value, order) + d.rest == bs
  {
    WidthModulus(w);
    UintCanonical(order, bs[..w.Size()]);
    var n := UintValue(order, bs[..w.Size()]);
    assert n % w.Modulus() == n;
  }

  lemma FrameCanonical(w: Width, bs: seq<byte>, order: ByteOrder)
    requires ReadFrame(w, bs, order).Got?
    ensures var d := ReadFrame(w, bs, order); Prefix(w, |d.value|, order) + d.value + d.rest == bs
  {
    PrefixCanonical(w, bs, order);
  }

  lemma {:induction false} DecodedIsCanonical(t: GoType, tag: Tag, bs: seq<byte>, order: ByteOrder)
    requires Closed(t, tag) && Tight(t, tag) && Unmarshal(t, tag, bs, order).Got?
    ensures var d := Unmarshal(t, tag, bs, order);
            && HasType(t, d.value)
            && Marshal(t, d.value, tag, order).Ok?
            && Marshal(t, d.value, tag, order).value + d.rest == bs
    decreases t, 2, 0
  {
    DecodedHasType(t, tag, bs, order);
    match t
    case Uint(k) => UintCanonical(order, bs[..k.Size()]);
    case String => FrameCanonical(tag.len.value, bs, order);
    case Array(n, e) => CountIsCanonical(e, n, bs, order);
    case Slice(e) =>
      if tag.len.Some? {
        var f := ReadFrame(tag.len.value, bs, order);
        FrameCanonical(tag.len.value, bs, order);
        FrameElemsCanonical(e, f.value, order);
      } else {
        var c := ReadUint(tag.count.value.Size(), bs, order);
        PrefixCanonical(tag.count.value, bs, order);
        CountIsCanonical(e, c.value, c.rest, order);
        var d := UnmarshalCount(e, c.value, c.rest, order);
        var p := Prefix(tag.count.value, c.value, order);
        var body := MarshalElems(e, d.value, order).value;
        assert p + body + d.rest == p + (body + d.rest);
      }
    case Struct(fs) => FieldsAreCanonical(fs, bs, order);
  }

  lemma {:induction false} CountIsCanonical(e: GoType, n: nat, bs: seq<byte>, order: ByteOrder)
    requires Encodable(e) && Closed(e, PLAIN) && Tight(e, PLAIN) && UnmarshalCount(e, n, bs, order).Got?
    ensures var d := UnmarshalCount(e, n, bs, order);
            && (forall x <- d.value :: HasType(e, x))
            && MarshalElems(e, d.value, order).Ok?
            && MarshalElems(e, d.value, order).value + d.rest == bs
    decreases e, 3, n
  {
    CountHasType(e, n, bs, order);
    if n == 0 {
      assert [] + bs == bs;
    } else {
      var head := Unmarshal(e, PLAIN, bs, order);
      DecodedIsCanonical(e, PLAIN, bs, order);
      CountIsCanonical(e, n - 1, head.rest, order);
      JoinElems(e, head.value, UnmarshalCount(e, n - 1, head.rest, order), order);
    }
  }

  lemma {:induction false} FrameElemsCanonical(e: GoType, bs: seq<byte>, order: ByteOrder)
    requires Encodable(e) && Closed(e, PLAIN) && Tight(e, PLAIN) && UnmarshalFrame(e, bs, order).Got?
    ensures var d := UnmarshalFrame(e, bs, order);
            && (forall x <- d.value :: HasType(e, x))
            && MarshalElems(e, d.value, order) == Ok(bs)
    decreases e, 3, |bs|
  {
    FrameHasType(e, bs, order);
    if bs != [] {
      var head := Unmarshal(e, PLAIN, bs, order);
      DecodedIsCanonical(e, PLAIN, bs, order);
      FrameElemsCanonical(e, head.rest, order);
      var vs := UnmarshalFrame(e, head.rest, order).value;
      assert ([head.value] + vs)[1..] == vs;
    }
  }

  lemma JoinElems(e: GoType, v: Value, d: Read<seq<Value>>, order: ByteOrder)
    requires Encodable(e) && HasType(e, v) && Marshal(e, v, PLAIN, order).Ok?
    requires d.Got? && (forall x <- d.value :: HasType(e, x)) && MarshalElems(e, d.value, order).Ok?
    ensures MarshalElems(e, [v] + d.value, order).Ok?
    ensures MarshalElems(e, [v] + d.value, order).value + d.rest
         == Marshal(e, v, PLAIN, order).value + (MarshalElems(e, d.value, order).value + d.rest)
  {
    assert ([v] + d.value)[1..] == d.value;
  }

  lemma JoinFields(tag: Tag, t: GoType, rest: Fields, v: Value, d: Read<seq<Value>>, order: ByteOrder)
    requires HasType(t, v) && Marshal(t, v, tag, order).Ok? && (t.Pointer? ==> rest.End? && t.target.Struct?)
    requires d.Got? && HaveTypes(rest, d.value) && MarshalFields(rest, d.value, order).Ok?
    ensures var fs := Field(tag, t, rest);
      && HaveTypes(fs, [v] + d.value) && MarshalFields(fs, [v] + d.value, order).Ok?
      && MarshalFields(fs, [v] + d.value, order).value + d.rest
         == Marshal(t, v, tag, order).value + (MarshalFields(rest, d.value, order).value + d.rest)
  {
    assert ([v] + d.value)[1..] == d.value;
  }

  lemma {:induction false} FieldsAreCanonical(fs: Fields, bs: seq<byte>, order: ByteOrder)
    requires ClosedFields(fs) && TightFields(fs) && UnmarshalFields(fs, bs, order).Got?
    ensures var d := UnmarshalFields(fs, bs, order);
            && HaveTypes(fs, d.value)
            && MarshalFields(fs, d.value, order).Ok?
            && MarshalFields(fs, d.value, order).value + d.rest == bs
    decreases fs, 3, 0
  {
    FieldsHaveTypes(fs, bs, order);
    match fs
    case End => assert [] + bs == bs;
    case Field(tag, t, rest) =>
      var head := Unmarshal(t, tag, bs, order);
      DecodedIsCanonical(t, tag, bs, order);
      FieldsAreCanonical(rest, head.rest, order);
      JoinFields(tag, t, rest, head.value, UnmarshalFields(rest, head.rest, order), order);
  }
}
