/**
 The codec as it runs: the decoder consumes a reader and grows slices in loops, the encoder appends to a writer
 and to temporary buffers. Each method is proved to compute the function of the same name.
 */
module CodecStreams {
  import opened Common
  import opened Schema
  import opened Integers
  import Encode
  import opened Decode
  import opened CodecExact

  // A method's result and the reader it leaves agree with a functional read.
  ghost predicate Agrees<T(!new)>(res: Result<T, CodecError>, left: seq<byte>, d: Read<T>) {
    left == d.rest &&
    match d
    case Got(v, _) => res == Ok(v)
    case Failed(x, _) => res == Err(x)
  }

  // What a read becomes when some elements were already collected before it.
  function After(done: seq<Value>, d: Read<seq<Value>>): Read<seq<Value>> {
    match d
    case Got(vs, r) => Got(done + vs, r)
    case Failed(x, r) => Failed(x, r)
  }

  lemma AfterNothing(d: Read<seq<Value>>)
    ensures After([], d) == d
  {
    if d.Got? { assert [] + d.value == d.value; }
  }

  lemma AfterOne(done: seq<Value>, v: Value, d: Read<seq<Value>>)
    ensures d.Got? ==> After(done, Got([v] + d.value, d.rest)) == After(done + [v], d)
    ensures d.Failed? ==> After(done, d) == After(done + [v], d)
  {
    if d.Got? { assert done + ([v] + d.value) == (done + [v]) + d.value; }
  }

  class Reader {
    var buf: seq<byte>

    constructor (buf: seq<byte>)
      ensures this.buf == buf
    {
      this.buf := buf;
    }

    method Full(n: nat) returns (res: Result<seq<byte>, CodecError>)
      modifies this
      ensures Agrees(res, buf, ReadFull(n, old(buf)))
    {
      if n == 0 { return Ok([]); }
      if |buf| == 0 { return Err(EOF); }
      if |buf| < n {
        buf := [];
        return Err(UnexpectedEOF);
      }
      res := Ok(buf[..n]);
      buf := buf[n..];
    }

    method UnsignedInt(size: nat, order: ByteOrder) returns (res: Result<nat, CodecError>)
      modifies this
      ensures Agrees(res, buf, ReadUint(size, old(buf), order))
    {
      var b := Full(size);
      match b
      case Err(x) => res := Err(x);
      case Ok(bytes) => res := Ok(UintValue(order, bytes));
    }

    method Frame(w: Width, order: ByteOrder) returns (res: Result<seq<byte>, CodecError>)
      modifies this
      ensures Agrees(res, buf, ReadFrame(w, old(buf), order))
    {
      var n := UnsignedInt(w.Size(), order);
      match n
      case Err(x) => res := Err(x);
      case Ok(len) => res := Full(len);
    }
  }

  method Unmarshal(t: GoType, tag: Tag, r: Reader, order: ByteOrder) returns (res: Result<Value, CodecError>)
    requires LoopSafe(t, tag)
    modifies r
    ensures Agrees(res, r.buf, Decode.Unmarshal(t, tag, old(r.buf), order))
    decreases t, 2
  {
    if tag.Rejected() { return Err(InvalidStructTag); }
    if tag.optional {
      if !t.Pointer? { return Err(OptionalNonPointer); }
      if !t.target.Struct? { return Err(BadPointerTarget); }
      var s := UnmarshalStruct(t.target.fields, tag, r, order);
      match s
      case Err(x) => return if x == EOF then Ok(Nil) else Err(x);
      case Ok(v) => return Ok(Ref(v));
    }
    match t
    case Pointer(_) => return Err(NonOptionalPointer);
    case Array(n, e) =>
      var vs := UnmarshalArray(e, n, r, order);
      match vs {
        case Err(x) => return Err(x);
        case Ok(elems) => return Ok(Elems(elems));
      }
    case Slice(e) =>
      var vs := UnmarshalSlice(e, tag, r, order);
      match vs {
        case Err(x) => return Err(x);
        case Ok(elems) => return Ok(Elems(elems));
      }
    case String =>
      if tag.len.None? { return Err(MissingLenPrefix); }
      var b := r.Frame(tag.len.value, order);
      match b {
        case Err(x) => return Err(x);
        case Ok(bytes) =>
          if tag.nullterm {
            var s := CutAtNul(bytes);
            return Ok(Text(s));
          }
          return Ok(Text(bytes));
      }
    case Struct(fs) => res := UnmarshalStruct(fs, tag, r, order);
    case Uint(k) =>
      var n := r.UnsignedInt(k.Size(), order);
      match n {
        case Err(x) => return Err(x);
        case Ok(num) => return Ok(Num(num));
      }
    case OtherKind => return Err(UnsupportedType);
  }

  // bytes.IndexByte and the truncation at the position it finds.
  method CutAtNul(bs: seq<byte>) returns (s: seq<byte>)
    ensures s == UpToNul(bs)
  {
    var i := 0;
    while i < |bs| && bs[i] != 0
      invariant 0 <= i <= |bs| && 0 !in bs[..i]
    {
      i := i + 1;
    }
    CutAt(bs, i);
    s := bs[..i];
  }

  // The cut is at the first NUL.
  lemma {:induction false} CutAt(bs: seq<byte>, i: nat)
    requires i <= |bs| && 0 !in bs[..i] && (i < |bs| ==> bs[i] == 0)
    ensures UpToNul(bs) == bs[..i]
  {
    if i > 0 {
      assert bs[0] in bs[..i] && bs[..i] == [bs[0]] + bs[1..][..i - 1];
      CutAt(bs[1..], i - 1);
    }
  }

  method UnmarshalArray(e: GoType, n: nat, r: Reader, order: ByteOrder) returns (res: Result<seq<Value>, CodecError>)
    requires LoopSafe(e, PLAIN)
    modifies r
    ensures Agrees(res, r.buf, UnmarshalCount(e, n, old(r.buf), order))
    decreases e, 3
  {
    var vs := [];
    var i := 0;
    AfterNothing(UnmarshalCount(e, n, r.buf, order));
    while i < n
      invariant 0 <= i <= n
      invariant After(vs, UnmarshalCount(e, n - i, r.buf, order)) == UnmarshalCount(e, n, old(r.buf), order)
    {
      var v := Unmarshal(e, PLAIN, r, order);
      if v.Err? { return Err(v.error); }
      AfterOne(vs, v.value, UnmarshalCount(e, n - i - 1, r.buf, order));
      vs := vs + [v.value];
      i := i + 1;
    }
    assert vs + [] == vs;
    res := Ok(vs);
  }

  method UnmarshalSlice(e: GoType, tag: Tag, r: Reader, order: ByteOrder) returns (res: Result<seq<Value>, CodecError>)
    requires LoopSafe(Slice(e), tag)
    modifies r
    ensures Agrees(res, r.buf, Decode.UnmarshalSlice(e, tag, old(r.buf), order))
    decreases e, 4
  {
    if tag.len.Some? {
      var b := r.Frame(tag.len.value, order);
      if b.Err? { return Err(b.error); }
      var frame := new Reader(b.value);
      res := UnmarshalUntilEmpty(e, frame, order);
    } else if tag.count.Some? {
      var n := r.UnsignedInt(tag.count.value.Size(), order);
      if n.Err? { return Err(n.error); }
      res := UnmarshalArray(e, n.value, r, order);
    } else {
      res := UnmarshalUntilEOF(e, r, order);
    }
  }

  method UnmarshalUntilEmpty(e: GoType, r: Reader, order: ByteOrder) returns (res: Result<seq<Value>, CodecError>)
    requires LoopSafe(e, PLAIN) && Wide(e, PLAIN)
    modifies r
    ensures Agrees(res, r.buf, UnmarshalFrame(e, old(r.buf), order))
    decreases e, 3
  {
    var vs := [];
    AfterNothing(UnmarshalFrame(e, r.buf, order));
    while |r.buf| > 0
      invariant After(vs, UnmarshalFrame(e, r.buf, order)) == UnmarshalFrame(e, old(r.buf), order)
      decreases |r.buf|
    {
      DecodeAdvances(e, PLAIN, r.buf, order);
      var v := Unmarshal(e, PLAIN, r, order);
      if v.Err? { return Err(v.error); }
      AfterOne(vs, v.value, UnmarshalFrame(e, r.buf, order));
      vs := vs + [v.value];
    }
    assert vs + [] == vs;
    res := Ok(vs);
  }

  method UnmarshalUntilEOF(e: GoType, r: Reader, order: ByteOrder) returns (res: Result<seq<Value>, CodecError>)
    requires LoopSafe(e, PLAIN) && Wide(e, PLAIN)
    modifies r
    ensures Agrees(res, r.buf, UnmarshalRest(e, old(r.buf), order))
    decreases e, 3
  {
    var vs := [];
    AfterNothing(UnmarshalRest(e, r.buf, order));
    while true
      invariant After(vs, UnmarshalRest(e, r.buf, order)) == UnmarshalRest(e, old(r.buf), order)
      decreases |r.buf|
    {
      DecodeAdvances(e, PLAIN, r.buf, order);
      var v := Unmarshal(e, PLAIN, r, order);
      assert vs + [] == vs;
      if v.Err? { return if v.error == EOF then Ok(vs) else Err(v.error); }
      AfterOne(vs, v.value, UnmarshalRest(e, r.buf, order));
      vs := vs + [v.value];
    }
  }

  method UnmarshalStruct(fs: Fields, tag: Tag, r: Reader, order: ByteOrder) returns (res: Result<Value, CodecError>)
    requires LoopSafeFields(fs)
    modifies r
    ensures Agrees(res, r.buf, Decode.UnmarshalStruct(fs, tag, old(r.buf), order))
    decreases fs, 4
  {
    var vs;
    if tag.len.Some? {
      var b := r.Frame(tag.len.value, order);
      if b.Err? { return Err(b.error); }
      var frame := new Reader(b.value);
      vs := UnmarshalEachField(fs, frame, order);
    } else {
      vs := UnmarshalEachField(fs, r, order);
    }
    match vs
    case Err(x) => res := Err(x);
    case Ok(fields) => res := Ok(Record(fields));
  }

  method UnmarshalEachField(fs: Fields, r: Reader, order: ByteOrder) returns (res: Result<seq<Value>, CodecError>)
    requires LoopSafeFields(fs)
    modifies r
    ensures Agrees(res, r.buf, UnmarshalFields(fs, old(r.buf), order))
    decreases fs, 3
  {
    var vs, todo := [], fs;
    AfterNothing(UnmarshalFields(fs, r.buf, order));
    while todo.Field?
      invariant LoopSafeFields(todo)
      invariant todo == fs || todo < fs
      invariant After(vs, UnmarshalFields(todo, r.buf, order)) == UnmarshalFields(fs, old(r.buf), order)
      decreases todo
    {
      var tag, t, rest := todo.tag, todo.typ, todo.rest;
      if t.Pointer? && !rest.End? { return Err(MisplacedPointer); }
      if t.Pointer? && !t.target.Struct? { return Err(BadPointerTarget); }
      var v := Unmarshal(t, tag, r, order);
      if v.Err? { return Err(v.error); }
      AfterOne(vs, v.value, UnmarshalFields(rest, r.buf, order));
      vs := vs + [v.value];
      todo := rest;
    }
    assert vs + [] == vs;
    res := Ok(vs);
  }

  // ---- The encoder ----

  class Writer {
    var out: seq<byte>

    constructor ()
      ensures out == []
    {
      out := [];
    }

    method Write(bs: seq<byte>)
      modifies this
      ensures out == old(out) + bs
    {
      out := out + bs;
    }
  }

  // What one encoding appends, after others were sent, is appended to them.
  lemma AppendsAfter(err: Option<CodecError>, start: seq<byte>, sent: seq<byte>, after: seq<byte>, head: Encode.Encoded)
    requires Appends(err, start + sent, after, head)
    ensures if head.Ok? then err.None? && after == start + (sent + head.value)
            else err == Some(head.error) && start <= after
  {
    if head.Ok? { assert start + sent + head.value == start + (sent + head.value); }
  }

  // A method reports an encoding's error, or none and exactly its bytes appended.
  ghost predicate Appends(err: Option<CodecError>, before: seq<byte>, after: seq<byte>, e: Encode.Encoded) {
    match e
    case Ok(bs) => err == None && after == before + bs
    case Err(x) => err == Some(x) && before <= after
  }

  method Marshal(t: GoType, v: Value, tag: Tag, w: Writer, order: ByteOrder) returns (err: Option<CodecError>)
    requires HasType(t, v)
    modifies w
    ensures Appends(err, old(w.out), w.out, Encode.Marshal(t, v, tag, order))
    decreases t, 2
  {
    if tag.Rejected() { return Some(InvalidStructTag); }
    if tag.optional {
      if !t.Pointer? { return Some(OptionalNonPointer); }
      if v.Nil? { return None; }
      if !t.target.Struct? { return Some(BadPointerTarget); }
      assert HasType(t.target, v.target);
      err := MarshalStruct(t.target.fields, v.target.fields, tag, w, order);
      return;
    }
    match t
    case Pointer(_) => return Some(NonOptionalPointer);
    case Array(_, e) => err := MarshalElems(e, v.elems, w, order);
    case Slice(e) => err := MarshalSlice(e, v.elems, tag, w, order);
    case String =>
      var str := v.bytes;
      if tag.nullterm && str != [] { str := str + [0]; }
      if tag.len.Some? { w.Write(Encode.Prefix(tag.len.value, |str|, order)); }
      w.Write(str);
      return None;
    case Struct(fs) => err := MarshalStruct(fs, v.fields, tag, w, order);
    case Uint(k) =>
      w.Write(UintBytes(order, k.Size(), v.n));
      return None;
    case OtherKind => return Some(UnsupportedType);
  }

  // The bytes sent so far, followed by what is still to be sent.
  function Sent(sent: seq<byte>, rest: Encode.Encoded): Encode.Encoded {
    match rest
    case Err(x) => Err(x)
    case Ok(bs) => Ok(sent + bs)
  }

  lemma ElemSent(e: GoType, vs: seq<Value>, j: nat, order: ByteOrder, sent: seq<byte>)
    requires (forall x <- vs :: HasType(e, x)) && Encodable(e) && j < |vs|
    ensures var head, all := Encode.Marshal(e, vs[j], PLAIN, order), Sent(sent, Encode.MarshalElems(e, vs[j..], order));
      if head.Err? then all == Err(head.error)
      else all == Sent(sent + head.value, Encode.MarshalElems(e, vs[j + 1..], order))
  {
    var head, tail := Encode.Marshal(e, vs[j], PLAIN, order), Encode.MarshalElems(e, vs[j + 1..], order);
    assert vs[j..][0] == vs[j] && vs[j..][1..] == vs[j + 1..];
    if head.Ok? && tail.Ok? { assert sent + (head.value + tail.value) == (sent + head.value) + tail.value; }
  }

  lemma AllSent(bs: seq<byte>, rest: Encode.Encoded)
    ensures rest == Ok([]) ==> Sent(bs, rest) == Ok(bs)
    ensures bs == [] ==> Sent(bs, rest) == rest
  {
    assert bs + [] == bs;
    if rest.Ok? { assert [] + rest.value == rest.value; }
  }

  method MarshalElems(e: GoType, vs: seq<Value>, w: Writer, order: ByteOrder) returns (err: Option<CodecError>)
    requires forall x <- vs :: HasType(e, x)
    modifies w
    ensures Appends(err, old(w.out), w.out, Encode.MarshalElems(e, vs, order))
    decreases e, 3
  {
    if !Encodable(e) { return Some(UnsupportedType); }
    var j := 0;
    ghost var all := Encode.MarshalElems(e, vs, order);
    ghost var sent: seq<byte> := [];
    assert vs[0..] == vs;
    AllSent(sent, all);
    while j < |vs|
      invariant 0 <= j <= |vs|
      invariant w.out == old(w.out) + sent
      invariant Sent(sent, Encode.MarshalElems(e, vs[j..], order)) == all
    {
      ElemSent(e, vs, j, order, sent);
      err := Marshal(e, vs[j], PLAIN, w, order);
      AppendsAfter(err, old(w.out), sent, w.out, Encode.Marshal(e, vs[j], PLAIN, order));
      if err.Some? { return; }
      sent := sent + Encode.Marshal(e, vs[j], PLAIN, order).value;
      j := j + 1;
    }
    AllSent(sent, Encode.MarshalElems(e, vs[j..], order));
    return None;
  }

  method MarshalSlice(e: GoType, vs: seq<Value>, tag: Tag, w: Writer, order: ByteOrder)
    returns (err: Option<CodecError>)
    requires forall x <- vs :: HasType(e, x)
    modifies w
    ensures Appends(err, old(w.out), w.out, Encode.MarshalSlice(e, vs, tag, order))
    decreases e, 4
  {
    var buf := new Writer();
    err := MarshalElems(e, vs, buf, order);
    if err.Some? { return; }
    if tag.len.Some? {
      w.Write(Encode.Prefix(tag.len.value, |buf.out|, order));
    } else if tag.count.Some? {
      w.Write(Encode.Prefix(tag.count.value, |vs|, order));
    }
    w.Write(buf.out);
  }

  method MarshalStruct(fs: Fields, vs: seq<Value>, tag: Tag, w: Writer, order: ByteOrder)
    returns (err: Option<CodecError>)
    requires HaveTypes(fs, vs)
    modifies w
    ensures Appends(err, old(w.out), w.out, Encode.MarshalStruct(fs, vs, tag, order))
    decreases fs, 4
  {
    if tag.len.Some? {
      var buf := new Writer();
      err := MarshalEachField(fs, vs, buf, order);
      if err.Some? { return; }
      w.Write(Encode.Prefix(tag.len.value, |buf.out|, order));
      w.Write(buf.out);
    } else {
      err := MarshalEachField(fs, vs, w, order);
    }
  }

  lemma FieldSent(fs: Fields, vs: seq<Value>, i: nat, order: ByteOrder, sent: seq<byte>)
    requires fs.Field? && i <= |vs| && HaveTypes(fs, vs[i..])
    requires fs.typ.Pointer? ==> fs.rest.End? && fs.typ.target.Struct?
    ensures i < |vs| && HasType(fs.typ, vs[i]) && HaveTypes(fs.rest, vs[i + 1..])
    ensures var head := Encode.Marshal(fs.typ, vs[i], fs.tag, order);
      var all := Sent(sent, Encode.MarshalFields(fs, vs[i..], order));
      if head.Err? then all == Err(head.error)
      else all == Sent(sent + head.value, Encode.MarshalFields(fs.rest, vs[i + 1..], order))
  {
    assert vs[i..][0] == vs[i] && vs[i..][1..] == vs[i + 1..];
    var head := Encode.Marshal(fs.typ, vs[i], fs.tag, order);
    var tail := Encode.MarshalFields(fs.rest, vs[i + 1..], order);
    if head.Ok? && tail.Ok? { assert sent + (head.value + tail.value) == (sent + head.value) + tail.value; }
  }

  method MarshalEachField(fs: Fields, vs: seq<Value>, w: Writer, order: ByteOrder) returns (err: Option<CodecError>)
    requires HaveTypes(fs, vs)
    modifies w
    ensures Appends(err, old(w.out), w.out, Encode.MarshalFields(fs, vs, order))
    decreases fs, 3
  {
    var todo, i := fs, 0;
    ghost var all := Encode.MarshalFields(fs, vs, order);
    ghost var sent: seq<byte> := [];
    assert vs[0..] == vs;
    AllSent(sent, all);
    while todo.Field?
      invariant 0 <= i <= |vs| && HaveTypes(todo, vs[i..])
      invariant todo == fs || todo < fs
      invariant w.out == old(w.out) + sent
      invariant Sent(sent, Encode.MarshalFields(todo, vs[i..], order)) == all
      decreases todo
    {
      var tag, t, rest := todo.tag, todo.typ, todo.rest;
      if t.Pointer? && !rest.End? { return Some(MisplacedPointer); }
      if t.Pointer? && !t.target.Struct? { return Some(BadPointerTarget); }
      FieldSent(todo, vs, i, order, sent);
      err := Marshal(t, vs[i], tag, w, order);
      AppendsAfter(err, old(w.out), sent, w.out, Encode.Marshal(t, vs[i], tag, order));
      if err.Some? { return; }
      sent := sent + Encode.Marshal(t, vs[i], tag, order).value;
      todo, i := rest, i + 1;
    }
    AllSent(sent, Encode.MarshalFields(todo, vs[i..], order));
    return None;
  }
}
