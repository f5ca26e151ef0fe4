/** The round trip holds for exactly the values that fit, and no decode loop runs for ever. */
module CodecExact {
  import opened Common
  import opened Schema
  import opened Encode
  import opened Decode
  import opened CodecProofs

  // ---- Reading from an encoding cut short after q bytes ----

  lemma CutAfter(a: seq<byte>, b: seq<byte>, q: nat)
    requires |a| <= q <= |a| + |b|
    ensures (a + b)[..q] == a + b[..q - |a|]
  {}

  lemma CutPrefix(w: Width, n: nat, order: ByteOrder, after: seq<byte>, q: nat)
    requires q <= w.Size() + |after|
    requires ReadUint(w.Size(), (Prefix(w, n, order) + after)[..q], order).Got?
    ensures w.Size() <= q
    ensures ReadUint(w.Size(), (Prefix(w, n, order) + after)[..q], order) == Got(n % w.Modulus(), after[..q - w.Size()])
  {
    CutAfter(Prefix(w, n, order), after, q);
    PrefixRoundTrip(w, n, order, after[..q - w.Size()]);
  }

  lemma CutFrame(w: Width, body: seq<byte>, order: ByteOrder, trail: seq<byte>, q: nat)
    requires q <= w.Size() + |body| + |trail|
    requires ReadFrame(w, (Prefix(w, |body|, order) + body + trail)[..q], order).Got?
    ensures w.Size() + |body| % w.Modulus() <= q
    ensures |body| % w.Modulus() <= |body|
    ensures ReadFrame(w, (Prefix(w, |body|, order) + body + trail)[..q], order).value == body[..|body| % w.Modulus()]
  {
    var p := Prefix(w, |body|, order);
    assert p + body + trail == p + (body + trail);
    CutPrefix(w, |body|, order, body + trail, q);
    ModDrop(|body|, w.Modulus());
    CutRead(|body| % w.Modulus(), body, trail, q - w.Size());
  }

  lemma CutRead(n: nat, body: seq<byte>, trail: seq<byte>, q: nat)
    requires n <= |body| && q <= |body| + |trail|
    ensures ReadFull(n, (body + trail)[..q]).Got? ==> n <= q && ReadFull(n, (body + trail)[..q]).value == body[..n]
  {}

  lemma ModDrop(n: nat, m: nat)
    requires m > 0
    ensures n < m ==> n % m == n
    ensures n >= m ==> n % m <= n - m
  {
    if n >= m {
      var k := n / m;
      assert n == k * m + n % m;
      assert k >= 1;
      assert (k - 1) * m >= 0;
    }
  }

  // ---- If a value survives the trip, it fitted ----

  lemma {:induction false} DecodedFits(t: GoType, v: Value, tag: Tag, order: ByteOrder, trail: seq<byte>, q: nat)
    requires Open(t, tag) && HasType(t, v) && (Closed(t, tag) || trail == [])
    requires Marshal(t, v, tag, order).Ok? && q <= |Marshal(t, v, tag, order).value + trail|
    requires Unmarshal(t, tag, (Marshal(t, v, tag, order).value + trail)[..q], order).Got?
    requires Unmarshal(t, tag, (Marshal(t, v, tag, order).value + trail)[..q], order).value == v
    ensures Fits(t, v, tag, order) && |Marshal(t, v, tag, order).value| <= q
    decreases t, 2
  {
    match t
    case Uint(k) =>
    case String => DecodedFitsString(v.bytes, tag, order, trail, q);
    case Array(n, e) => DecodedFitsCount(e, v.elems, order, trail, q);
    case Slice(e) => DecodedFitsSlice(e, v, tag, order, trail, q);
    case Struct(fs) =>
      ClosedIsOpen(fs);
      DecodedFitsStruct(fs, v.fields, tag, order, trail, q);
    case Pointer(e) =>
      if v.Ref? {
        assert HasType(e, v.target);
        DecodedFitsStruct(e.fields, v.target.fields, tag, order, trail, q);
      }
  }

  lemma DecodedFitsString(s: seq<byte>, tag: Tag, order: ByteOrder, trail: seq<byte>, q: nat)
    requires tag.len.Some? && q <= |MarshalString(s, tag, order) + trail|
    requires var d := UnmarshalString(tag, (MarshalString(s, tag, order) + trail)[..q], order);
             d.Got? && d.value == Text(s)
    ensures |Terminated(s, tag)| < tag.len.value.Modulus() && (tag.nullterm ==> 0 !in s)
    ensures |MarshalString(s, tag, order)| <= q
  {
    var w, body := tag.len.value, Terminated(s, tag);
    CutFrame(w, body, order, trail, q);
    ModDrop(|body|, w.Modulus());
    assert |s| <= |body| % w.Modulus();
  }

  lemma {:induction false} DecodedFitsSlice(e: GoType, v: Value, tag: Tag, order: ByteOrder, trail: seq<byte>, q: nat)
    requires Open(Slice(e), tag) && !tag.optional && HasType(Slice(e), v) && (Closed(Slice(e), tag) || trail == [])
    requires MarshalSlice(e, v.elems, tag, order).Ok? && q <= |MarshalSlice(e, v.elems, tag, order).value + trail|
    requires var d := UnmarshalSlice(e, tag, (MarshalSlice(e, v.elems, tag, order).value + trail)[..q], order);
             d.Got? && d.value == v.elems
    ensures Fits(Slice(e), v, tag, order) && |MarshalSlice(e, v.elems, tag, order).value| <= q
    decreases e, 5
  {
    var body := MarshalElems(e, v.elems, order).value;
    if tag.len.Some? {
      CutFrame(tag.len.value, body, order, trail, q);
      ModDrop(|body|, tag.len.value.Modulus());
      DecodedFitsFrame(e, v.elems, order, |body| % tag.len.value.Modulus());
    } else if tag.count.Some? {
      var w := tag.count.value;
      var p := Prefix(w, |v.elems|, order);
      assert p + body + trail == p + (body + trail);
      CutPrefix(w, |v.elems|, order, body + trail, q);
      ModDrop(|v.elems|, w.Modulus());
      DecodedFitsCount(e, v.elems, order, trail, q - w.Size());
    } else {
      assert body + trail == body;
      DecodedFitsRest(e, v.elems, order, q);
    }
  }

  // One of several encodings in a row survived, so it fitted; the decoder then holds what follows it, cut short.
  lemma {:induction false} DecodedFitsField(t: GoType, v: Value, tag: Tag, order: ByteOrder, after: seq<byte>, q: nat)
    requires Open(t, tag) && HasType(t, v) && (Closed(t, tag) || after == [])
    requires Marshal(t, v, tag, order).Ok? && q <= |Marshal(t, v, tag, order).value + after|
    requires Unmarshal(t, tag, (Marshal(t, v, tag, order).value + after)[..q], order).Got?
    requires Unmarshal(t, tag, (Marshal(t, v, tag, order).value + after)[..q], order).value == v
    ensures Fits(t, v, tag, order) && |Marshal(t, v, tag, order).value| <= q
    ensures Unmarshal(t, tag, (Marshal(t, v, tag, order).value + after)[..q], order).rest
         == after[..q - |Marshal(t, v, tag, order).value|]
    decreases t, 3
  {
    var head := Marshal(t, v, tag, order).value;
    DecodedFits(t, v, tag, order, after, q);
    CutAfter(head, after, q);
    DecodeEncoded(t, v, tag, order, after[..q - |head|]);
  }

  lemma ElemParts(e: GoType, vs: seq<Value>, order: ByteOrder) returns (head: seq<byte>, tail: seq<byte>)
    requires vs != [] && (forall x <- vs :: HasType(e, x)) && MarshalElems(e, vs, order).Ok?
    ensures Marshal(e, vs[0], PLAIN, order) == Ok(head) && MarshalElems(e, vs[1..], order) == Ok(tail)
    ensures MarshalElems(e, vs, order) == Ok(head + tail)
  {
    head, tail := Marshal(e, vs[0], PLAIN, order).value, MarshalElems(e, vs[1..], order).value;
  }

  lemma CountParts(e: GoType, n: nat, bs: seq<byte>, order: ByteOrder)
    requires n > 0 && UnmarshalCount(e, n, bs, order).Got?
    ensures var d, head := UnmarshalCount(e, n, bs, order), Unmarshal(e, PLAIN, bs, order);
      head.Got? && UnmarshalCount(e, n - 1, head.rest, order) == Got(d.value[1..], d.rest) && d.value[0] == head.value
  {
    var head := Unmarshal(e, PLAIN, bs, order);
    var vs := UnmarshalCount(e, n - 1, head.rest, order).value;
    assert ([head.value] + vs)[1..] == vs;
  }

  lemma FieldsParts(fs: Fields, bs: seq<byte>, order: ByteOrder)
    requires fs.Field? && UnmarshalFields(fs, bs, order).Got?
    ensures var d, head := UnmarshalFields(fs, bs, order), Unmarshal(fs.typ, fs.tag, bs, order);
      && head.Got? && d.value != [] && d.value[0] == head.value
      && UnmarshalFields(fs.rest, head.rest, order) == Got(d.value[1..], d.rest)
  {
    var head := Unmarshal(fs.typ, fs.tag, bs, order);
    var vs := UnmarshalFields(fs.rest, head.rest, order).value;
    assert ([head.value] + vs)[1..] == vs;
  }

  // Decoding what is left of several elements after q bytes gives all of them.
  predicate CountSurvives(e: GoType, vs: seq<Value>, order: ByteOrder, trail: seq<byte>, q: nat) {
    && (forall x <- vs :: HasType(e, x)) && MarshalElems(e, vs, order).Ok?
    && q <= |MarshalElems(e, vs, order).value + trail|
    && var d := UnmarshalCount(e, |vs|, (MarshalElems(e, vs, order).value + trail)[..q], order);
       d.Got? && d.value == vs
  }

  // The first of them fitted, and the decoder goes on with the others.
  lemma {:induction false} FirstOfCount(e: GoType, vs: seq<Value>, order: ByteOrder, head: seq<byte>, after: seq<byte>,
                                        q: nat)
    requires Closed(e, PLAIN) && vs != [] && HasType(e, vs[0])
    requires Marshal(e, vs[0], PLAIN, order) == Ok(head) && q <= |head + after|
    requires var d := UnmarshalCount(e, |vs|, (head + after)[..q], order); d.Got? && d.value == vs
    ensures Fits(e, vs[0], PLAIN, order) && |head| <= q
    ensures var d := UnmarshalCount(e, |vs[1..]|, after[..q - |head|], order); d.Got? && d.value == vs[1..]
    decreases e, 4, |vs|, 0
  {
    assert |vs[1..]| == |vs| - 1;
    CountParts(e, |vs|, (head + after)[..q], order);
    DecodedFitsField(e, vs[0], PLAIN, order, after, q);
  }

  lemma {:induction false} OthersSurvive(e: GoType, vs: seq<Value>, order: ByteOrder, trail: seq<byte>, q: nat)
    returns (head: seq<byte>, tail: seq<byte>)
    requires Closed(e, PLAIN) && vs != [] && CountSurvives(e, vs, order, trail, q)
    ensures Marshal(e, vs[0], PLAIN, order) == Ok(head) && MarshalElems(e, vs[1..], order) == Ok(tail)
    ensures MarshalElems(e, vs, order) == Ok(head + tail)
    ensures Fits(e, vs[0], PLAIN, order) && |head| <= q && CountSurvives(e, vs[1..], order, trail, q - |head|)
    decreases e, 4, |vs|, 1
  {
    head, tail := ElemParts(e, vs, order);
    assert head + tail + trail == head + (tail + trail);
    FirstOfCount(e, vs, order, head, tail + trail, q);
  }

  lemma {:induction false} DecodedFitsCount(e: GoType, vs: seq<Value>, order: ByteOrder, trail: seq<byte>, q: nat)
    requires Closed(e, PLAIN) && CountSurvives(e, vs, order, trail, q)
    ensures FitsElems(e, vs, order) && |MarshalElems(e, vs, order).value| <= q
    decreases e, 4, |vs|, 2
  {
    if vs != [] {
      var head, tail := OthersSurvive(e, vs, order, trail, q);
      DecodedFitsCount(e, vs[1..], order, trail, q - |head|);
    }
  }

  lemma {:induction false} DecodedFitsFrame(e: GoType, vs: seq<Value>, order: ByteOrder, q: nat)
    requires Closed(e, PLAIN) && (forall x <- vs :: HasType(e, x)) && MarshalElems(e, vs, order).Ok?
    requires q <= |MarshalElems(e, vs, order).value|
    requires var d := UnmarshalFrame(e, MarshalElems(e, vs, order).value[..q], order); d.Got? && d.value == vs
    ensures FitsElems(e, vs, order) && |MarshalElems(e, vs, order).value| <= q
    decreases e, 4, |vs|
  {
    if vs != [] {
      var head, tail := Marshal(e, vs[0], PLAIN, order).value, MarshalElems(e, vs[1..], order).value;
      DecodedFitsField(e, vs[0], PLAIN, order, tail, q);
      DecodedFitsFrame(e, vs[1..], order, q - |head|);
    }
  }

  lemma {:induction false} DecodedFitsRest(e: GoType, vs: seq<Value>, order: ByteOrder, q: nat)
    requires Closed(e, PLAIN) && (forall x <- vs :: HasType(e, x)) && MarshalElems(e, vs, order).Ok?
    requires q <= |MarshalElems(e, vs, order).value|
    requires var d := UnmarshalRest(e, MarshalElems(e, vs, order).value[..q], order); d.Got? && d.value == vs
    ensures FitsElems(e, vs, order) && |MarshalElems(e, vs, order).value| <= q
    decreases e, 4, |vs|
  {
    if vs != [] {
      var head, tail := Marshal(e, vs[0], PLAIN, order).value, MarshalElems(e, vs[1..], order).value;
      DecodedFitsField(e, vs[0], PLAIN, order, tail, q);
      DecodedFitsRest(e, vs[1..], order, q - |head|);
    }
  }

  lemma {:induction false} DecodedFitsStruct(fs: Fields, vs: seq<Value>, tag: Tag, order: ByteOrder, trail: seq<byte>,
                                             q: nat)
    requires OpenFields(fs) && HaveTypes(fs, vs) && (tag.len.Some? || ClosedFields(fs) || trail == [])
    requires MarshalStruct(fs, vs, tag, order).Ok? && q <= |MarshalStruct(fs, vs, tag, order).value + trail|
    requires var d := UnmarshalStruct(fs, tag, (MarshalStruct(fs, vs, tag, order).value + trail)[..q], order);
             d.Got? && d.value == Record(vs)
    ensures FitsStruct(fs, vs, tag, order) && |MarshalStruct(fs, vs, tag, order).value| <= q
    decreases fs, 4
  {
    var body := MarshalFields(fs, vs, order).value;
    if tag.len.Some? {
      CutFrame(tag.len.value, body, order, trail, q);
      ModDrop(|body|, tag.len.value.Modulus());
      assert body + [] == body;
      DecodedFitsFields(fs, vs, order, [], |body| % tag.len.value.Modulus());
    } else {
      DecodedFitsFields(fs, vs, order, trail, q);
    }
  }

  // The first field fitted, and the decoder goes on with the others.
  lemma {:induction false} FirstOfFields(fs: Fields, vs: seq<Value>, order: ByteOrder, head: seq<byte>,
                                         after: seq<byte>, q: nat)
    requires fs.Field? && Open(fs.typ, fs.tag) && HaveTypes(fs, vs) && (Closed(fs.typ, fs.tag) || after == [])
    requires Marshal(fs.typ, vs[0], fs.tag, order) == Ok(head) && q <= |head + after|
    requires var d := UnmarshalFields(fs, (head + after)[..q], order); d.Got? && d.value == vs
    ensures Fits(fs.typ, vs[0], fs.tag, order) && |head| <= q
    ensures var d := UnmarshalFields(fs.rest, after[..q - |head|], order); d.Got? && d.value == vs[1..]
    decreases fs, 2
  {
    FieldsParts(fs, (head + after)[..q], order);
    DecodedFitsField(fs.typ, vs[0], fs.tag, order, after, q);
  }

  lemma FieldParts(fs: Fields, vs: seq<Value>, order: ByteOrder) returns (head: seq<byte>, tail: seq<byte>)
    requires fs.Field? && HaveTypes(fs, vs) && MarshalFields(fs, vs, order).Ok?
    ensures Marshal(fs.typ, vs[0], fs.tag, order) == Ok(head) && MarshalFields(fs.rest, vs[1..], order) == Ok(tail)
    ensures MarshalFields(fs, vs, order) == Ok(head + tail)
    ensures fs.rest.End? ==> tail == []
  {
    head, tail := Marshal(fs.typ, vs[0], fs.tag, order).value, MarshalFields(fs.rest, vs[1..], order).value;
  }

  lemma {:induction false} DecodedFitsFields(fs: Fields, vs: seq<Value>, order: ByteOrder, trail: seq<byte>, q: nat)
    requires OpenFields(fs) && HaveTypes(fs, vs) && (ClosedFields(fs) || trail == [])
    requires MarshalFields(fs, vs, order).Ok? && q <= |MarshalFields(fs, vs, order).value + trail|
    requires var d := UnmarshalFields(fs, (MarshalFields(fs, vs, order).value + trail)[..q], order);
             d.Got? && d.value == vs
    ensures FitsFields(fs, vs, order) && |MarshalFields(fs, vs, order).value| <= q
    decreases fs, 3
  {
    if fs.Field? {
      var head, tail := FieldParts(fs, vs, order);
      assert head + tail + trail == head + (tail + trail);
      assert Closed(fs.typ, fs.tag) || tail + trail == [];
      FirstOfFields(fs, vs, order, head, tail + trail, q);
      DecodedFitsFields(fs.rest, vs[1..], order, trail, q - |head|);
    }
  }

  // ---- The two theorems about the codec ----

  // For every well-formed schema, in either byte order: decoding what was encoded, with anything after it when
  // the schema is self-delimiting, gives back the value and leaves the rest unread, exactly for the values
  // whose lengths, counts and NULs the prefixes can describe.
  lemma RoundTripExactly(t: GoType, v: Value, tag: Tag, order: ByteOrder, trail: seq<byte>)
    requires Open(t, tag) && HasType(t, v) && (Closed(t, tag) || trail == [])
    ensures Marshal(t, v, tag, order).Ok?
    ensures Unmarshal(t, tag, Marshal(t, v, tag, order).value + trail, order) == Got(v, trail)
       <==> Fits(t, v, tag, order)
  {
    MarshalSucceeds(t, v, tag, order);
    var input := Marshal(t, v, tag, order).value + trail;
    if Fits(t, v, tag, order) {
      DecodeEncoded(t, v, tag, order, trail);
    } else if Unmarshal(t, tag, input, order) == Got(v, trail) {
      assert input[..|input|] == input;
      DecodedFits(t, v, tag, order, trail, |input|);
      assert false;
    }
  }

  // A type that is at least one byte wide never decodes without consuming something.
  lemma {:induction false} DecodeAdvances(t: GoType, tag: Tag, bs: seq<byte>, order: ByteOrder)
    requires Wide(t, tag)
    ensures Unmarshal(t, tag, bs, order).Got? ==> |Unmarshal(t, tag, bs, order).rest| < |bs|
    decreases t
  {
    match t
    case Array(n, e) =>
      DecodeAdvances(e, PLAIN, bs, order);
      CountAdvances(e, n, bs, order);
    case Struct(fs) =>
      if tag.len.None? { FieldsAdvance(fs, bs, order); }
      StructAdvances(fs, tag, bs, order);
    case Slice(e) => SliceAdvances(e, tag, bs, order);
    case Uint(k) => UintAdvances(k.Size(), bs, order);
    case String => FrameAdvances(tag.len.value, bs, order);
  }

  lemma UintAdvances(size: nat, bs: seq<byte>, order: ByteOrder)
    requires size > 0
    ensures ReadUint(size, bs, order).Got? ==> |ReadUint(size, bs, order).rest| < |bs|
  {
  }

  lemma FrameAdvances(w: Width, bs: seq<byte>, order: ByteOrder)
    ensures ReadFrame(w, bs, order).Got? ==> |ReadFrame(w, bs, order).rest| < |bs|
  {
    UintAdvances(w.Size(), bs, order);
  }

  lemma StructAdvances(fs: Fields, tag: Tag, bs: seq<byte>, order: ByteOrder)
    requires tag.len.None? && UnmarshalFields(fs, bs, order).Got? ==>
               |UnmarshalFields(fs, bs, order).rest| < |bs|
    ensures UnmarshalStruct(fs, tag, bs, order).Got? ==> |UnmarshalStruct(fs, tag, bs, order).rest| < |bs|
  {
    if tag.len.Some? { FrameAdvances(tag.len.value, bs, order); }
  }

  lemma CountAdvances(e: GoType, n: nat, bs: seq<byte>, order: ByteOrder)
    requires n > 0 && (Unmarshal(e, PLAIN, bs, order).Got? ==> |Unmarshal(e, PLAIN, bs, order).rest| < |bs|)
    ensures UnmarshalCount(e, n, bs, order).Got? ==> |UnmarshalCount(e, n, bs, order).rest| < |bs|
  {
  }

  // The prefix of a slice is consumed in any case.
  lemma SliceAdvances(e: GoType, tag: Tag, bs: seq<byte>, order: ByteOrder)
    requires tag.len.Some? || tag.count.Some?
    ensures UnmarshalSlice(e, tag, bs, order).Got? ==> |UnmarshalSlice(e, tag, bs, order).rest| < |bs|
  {
    if tag.len.Some? {
      FrameAdvances(tag.len.value, bs, order);
    } else {
      UintAdvances(tag.count.value.Size(), bs, order);
    }
  }

  lemma {:induction false} FieldsAdvance(fs: Fields, bs: seq<byte>, order: ByteOrder)
    requires AnyWide(fs)
    ensures UnmarshalFields(fs, bs, order).Got? ==> |UnmarshalFields(fs, bs, order).rest| < |bs|
    decreases fs
  {
    if Wide(fs.typ, fs.tag) { DecodeAdvances(fs.typ, fs.tag, bs, order); }
    if AnyWide(fs.rest) { FieldsAdvance(fs.rest, Unmarshal(fs.typ, fs.tag, bs, order).rest, order); }
  }

  // Whatever bytes arrive, well-formed or not, no decode loop of a loop-safe schema runs for ever.
  lemma {:induction false} DecodeTerminates(t: GoType, tag: Tag, bs: seq<byte>, order: ByteOrder)
    requires LoopSafe(t, tag)
    ensures Unmarshal(t, tag, bs, order).Failed? ==> Unmarshal(t, tag, bs, order).error != Stuck
    decreases t, 2, 0
  {
    match t
    case Array(n, e) => CountTerminates(e, n, bs, order);
    case Slice(e) =>
      if tag.len.Some? {
        var f := ReadFrame(tag.len.value, bs, order);
        if f.Got? { FrameTerminates(e, f.value, order); }
      } else if tag.count.Some? {
        var c := ReadUint(tag.count.value.Size(), bs, order);
        if c.Got? { CountTerminates(e, c.value, c.rest, order); }
      } else {
        RestTerminates(e, bs, order);
      }
    case Struct(fs) => StructTerminates(fs, tag, bs, order);
    case Pointer(e) => if e.Struct? { StructTerminates(e.fields, tag, bs, order); }
    case _ =>
  }

  lemma {:induction false} StructTerminates(fs: Fields, tag: Tag, bs: seq<byte>, order: ByteOrder)
    requires LoopSafeFields(fs)
    ensures UnmarshalStruct(fs, tag, bs, order).Failed? ==> UnmarshalStruct(fs, tag, bs, order).error != Stuck
    decreases fs, 4, 0
  {
    if tag.len.Some? {
      var f := ReadFrame(tag.len.value, bs, order);
      if f.Got? { FieldsTerminate(fs, f.value, order); }
    } else {
      FieldsTerminate(fs, bs, order);
    }
  }

  lemma {:induction false} CountTerminates(e: GoType, n: nat, bs: seq<byte>, order: ByteOrder)
    requires LoopSafe(e, PLAIN)
    ensures UnmarshalCount(e, n, bs, order).Failed? ==> UnmarshalCount(e, n, bs, order).error != Stuck
    decreases e, 3, n
  {
    if n > 0 {
      DecodeTerminates(e, PLAIN, bs, order);
      CountTerminates(e, n - 1, Unmarshal(e, PLAIN, bs, order).rest, order);
    }
  }

  lemma {:induction false} FrameTerminates(e: GoType, bs: seq<byte>, order: ByteOrder)
    requires LoopSafe(e, PLAIN) && Wide(e, PLAIN)
    ensures UnmarshalFrame(e, bs, order).Failed? ==> UnmarshalFrame(e, bs, order).error != Stuck
    decreases e, 3, |bs|
  {
    DecodeTerminates(e, PLAIN, bs, order);
    DecodeAdvances(e, PLAIN, bs, order);
    var d := Unmarshal(e, PLAIN, bs, order);
    if d.Got? { FrameTerminates(e, d.rest, order); }
  }

  lemma {:induction false} RestTerminates(e: GoType, bs: seq<byte>, order: ByteOrder)
    requires LoopSafe(e, PLAIN) && Wide(e, PLAIN)
    ensures UnmarshalRest(e, bs, order).Failed? ==> UnmarshalRest(e, bs, order).error != Stuck
    decreases e, 3, |bs|
  {
    DecodeTerminates(e, PLAIN, bs, order);
    DecodeAdvances(e, PLAIN, bs, order);
    var d := Unmarshal(e, PLAIN, bs, order);
    if d.Got? { RestTerminates(e, d.rest, order); }
  }

  lemma {:induction false} FieldsTerminate(fs: Fields, bs: seq<byte>, order: ByteOrder)
    requires LoopSafeFields(fs)
    ensures UnmarshalFields(fs, bs, order).Failed? ==> UnmarshalFields(fs, bs, order).error != Stuck
    decreases fs, 3, 0
  {
    if fs.Field? {
      DecodeTerminates(fs.typ, fs.tag, bs, order);
      FieldsTerminate(fs.rest, Unmarshal(fs.typ, fs.tag, bs, order).rest, order);
    }
  }

  // Well-formed schemas are loop-safe.
  lemma {:induction false} WellFormedIsLoopSafe(t: GoType, tag: Tag)
    requires Open(t, tag)
    ensures LoopSafe(t, tag)
    decreases t, 1
  {
    match t
    case Array(_, e) => WellFormedIsLoopSafe(e, PLAIN);
    case Slice(e) => WellFormedIsLoopSafe(e, PLAIN);
    case Struct(fs) =>
      ClosedIsOpen(fs);
      WellFormedFieldsAreLoopSafe(fs);
    case Pointer(e) => WellFormedFieldsAreLoopSafe(e.fields);
    case _ =>
  }

  lemma {:induction false} WellFormedFieldsAreLoopSafe(fs: Fields)
    requires OpenFields(fs)
    ensures LoopSafeFields(fs)
    decreases fs, 0
  {
    if fs.Field? {
      WellFormedIsLoopSafe(fs.typ, fs.tag);
      WellFormedFieldsAreLoopSafe(fs.rest);
    }
  }

  // A self-delimiting type that is not wide decodes from anything and consumes nothing.
  lemma {:induction false} NarrowStays(t: GoType, tag: Tag, bs: seq<byte>, order: ByteOrder)
    requires Closed(t, tag) && !Wide(t, tag)
    ensures Unmarshal(t, tag, bs, order).Got? && Unmarshal(t, tag, bs, order).rest == bs
    decreases t, 2, 0
  {
    match t
    case Array(n, e) => NarrowCountStays(e, n, bs, order);
    case Struct(fs) => NarrowFieldsStay(fs, bs, order);
  }

  lemma {:induction false} NarrowCountStays(e: GoType, n: nat, bs: seq<byte>, order: ByteOrder)
    requires n > 0 ==> Closed(e, PLAIN) && !Wide(e, PLAIN)
    ensures UnmarshalCount(e, n, bs, order).Got? && UnmarshalCount(e, n, bs, order).rest == bs
    decreases e, 3, n
  {
    if n > 0 {
      NarrowStays(e, PLAIN, bs, order);
      NarrowCountStays(e, n - 1, bs, order);
    }
  }

  lemma {:induction false} NarrowFieldsStay(fs: Fields, bs: seq<byte>, order: ByteOrder)
    requires ClosedFields(fs) && !AnyWide(fs)
    ensures UnmarshalFields(fs, bs, order).Got? && UnmarshalFields(fs, bs, order).rest == bs
    decreases fs, 3, 0
  {
    if fs.Field? {
      NarrowStays(fs.typ, fs.tag, bs, order);
      NarrowFieldsStay(fs.rest, bs, order);
    }
  }

  // An input on which a slice of narrow elements is decoded for ever: any one, in a frame when there is a length.
  function Endless(tag: Tag, order: ByteOrder): seq<byte> {
    if tag.len.Some? then Prefix(tag.len.value, 1, order) + [0] else []
  }

  // The decoder would run for ever.
  predicate Hangs(t: GoType, tag: Tag, bs: seq<byte>, order: ByteOrder) {
    var d := Unmarshal(t, tag, bs, order);
    d.Failed? && d.error == Stuck
  }

  // A slice of self-delimiting elements, in whichever of the three forms, has an input on which its loop runs for ever
  // if and only if it is not loop-safe, that is, it is decoded until its bytes run out and its elements are not wide.
  lemma SliceLoopsExactly(e: GoType, tag: Tag, order: ByteOrder)
    requires Closed(e, PLAIN) && !tag.Rejected() && !tag.optional
    ensures (exists bs :: Hangs(Slice(e), tag, bs, order)) <==> !LoopSafe(Slice(e), tag)
    ensures LoopSafe(Slice(e), tag) <==> tag.count.Some? || Wide(e, PLAIN)
  {
    WellFormedIsLoopSafe(e, PLAIN);
    if LoopSafe(Slice(e), tag) {
      forall bs ensures !Hangs(Slice(e), tag, bs, order) {
        DecodeTerminates(Slice(e), tag, bs, order);
      }
    } else {
      NarrowLoops(e, tag, order);
    }
  }

  lemma NarrowLoops(e: GoType, tag: Tag, order: ByteOrder)
    requires Closed(e, PLAIN) && !Wide(e, PLAIN) && tag.count.None? && !tag.optional
    ensures Hangs(Slice(e), tag, Endless(tag, order), order)
  {
    var bs := Endless(tag, order);
    if tag.len.Some? {
      var one: seq<byte> := [0];
      assert |one| == 1 && Prefix(tag.len.value, 1, order) + one + [] == bs;
      FrameRoundTrip(tag.len.value, one, order, []);
      NarrowStays(e, PLAIN, one, order);
      assert UnmarshalFrame(e, one, order) == Failed(Stuck, one);
      assert ReadFrame(tag.len.value, bs, order) == Got(one, []);
    } else {
      NarrowStays(e, PLAIN, bs, order);
      assert UnmarshalSlice(e, tag, bs, order) == UnmarshalRest(e, bs, order) == Failed(Stuck, bs);
    }
  }

  // For instance, a slice of empty structs never ends, given any input.
  lemma EmptyElementsNeverEnd(bs: seq<byte>, order: ByteOrder)
    ensures Unmarshal(Slice(Struct(End)), PLAIN, bs, order) == Failed(Stuck, bs)
  {
    assert Unmarshal(Struct(End), PLAIN, bs, order) == Got(Record([]), bs);
  }

  // ---- Whatever bytes arrive, a decoded value has the type it was decoded as ----

  lemma {:induction false} DecodedHasType(t: GoType, tag: Tag, bs: seq<byte>, order: ByteOrder)
    ensures Unmarshal(t, tag, bs, order).Got? ==> HasType(t, Unmarshal(t, tag, bs, order).value)
    decreases t, 2, 0
  {
    match t
    case Array(n, e) => CountHasType(e, n, bs, order);
    case Slice(e) =>
      if tag.len.Some? {
        var f := ReadFrame(tag.len.value, bs, order);
        if f.Got? { FrameHasType(e, f.value, order); }
      } else if tag.count.Some? {
        var c := ReadUint(tag.count.value.Size(), bs, order);
        if c.Got? { CountHasType(e, c.value, c.rest, order); }
      } else {
        RestHasType(e, bs, order);
      }
    case Struct(fs) => StructHasType(fs, tag, bs, order);
    case Pointer(e) => if e.Struct? { StructHasType(e.fields, tag, bs, order); }
    case _ =>
  }

  lemma {:induction false} StructHasType(fs: Fields, tag: Tag, bs: seq<byte>, order: ByteOrder)
    ensures UnmarshalStruct(fs, tag, bs, order).Got? ==> HasType(Struct(fs), UnmarshalStruct(fs, tag, bs, order).value)
    decreases fs, 4, 0
  {
    if tag.len.Some? {
      var f := ReadFrame(tag.len.value, bs, order);
      if f.Got? { FieldsHaveTypes(fs, f.value, order); }
    } else {
      FieldsHaveTypes(fs, bs, order);
    }
  }

  lemma {:induction false} CountHasType(e: GoType, n: nat, bs: seq<byte>, order: ByteOrder)
    ensures UnmarshalCount(e, n, bs, order).Got? ==>
              forall x <- UnmarshalCount(e, n, bs, order).value :: HasType(e, x)
    decreases e, 3, n
  {
    if n > 0 {
      DecodedHasType(e, PLAIN, bs, order);
      CountHasType(e, n - 1, Unmarshal(e, PLAIN, bs, order).rest, order);
    }
  }

  lemma {:induction false} FrameHasType(e: GoType, bs: seq<byte>, order: ByteOrder)
    ensures UnmarshalFrame(e, bs, order).Got? ==> forall x <- UnmarshalFrame(e, bs, order).value :: HasType(e, x)
    decreases e, 3, |bs|
  {
    DecodedHasType(e, PLAIN, bs, order);
    var d := Unmarshal(e, PLAIN, bs, order);
    if d.Got? && |d.rest| < |bs| { FrameHasType(e, d.rest, order); }
  }

  lemma {:induction false} RestHasType(e: GoType, bs: seq<byte>, order: ByteOrder)
    ensures UnmarshalRest(e, bs, order).Got? ==> forall x <- UnmarshalRest(e, bs, order).value :: HasType(e, x)
    decreases e, 3, |bs|
  {
    DecodedHasType(e, PLAIN, bs, order);
    var d := Unmarshal(e, PLAIN, bs, order);
    if d.Got? && |d.rest| < |bs| { RestHasType(e, d.rest, order); }
  }

  lemma {:induction false} FieldsHaveTypes(fs: Fields, bs: seq<byte>, order: ByteOrder)
    ensures UnmarshalFields(fs, bs, order).Got? ==> HaveTypes(fs, UnmarshalFields(fs, bs, order).value)
    decreases fs, 3, 0
  {
    if fs.Field? {
      DecodedHasType(fs.typ, fs.tag, bs, order);
      var d := Unmarshal(fs.typ, fs.tag, bs, order);
      if d.Got? {
        FieldsHaveTypes(fs.rest, d.rest, order);
        var later := UnmarshalFields(fs.rest, d.rest, order);
        if later.Got? { assert ([d.value] + later.value)[1..] == later.value; }
      }
    }
  }
}
