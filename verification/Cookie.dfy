/** The signed auth cookie: what Issue mints and what Crack makes of it. The MAC itself is a parameter. */
module Cookie {
  import opened Common
  import opened Schema
  import opened Integers
  import Encode
  import Decode
  import opened CodecProofs
  import opened CodecExact
  import opened CodecCanonical
  import CodecStreams

  const COOKIE_LEN := 256
  const NANOS_PER_SECOND := 1_000_000_000

  const BLOB := Slice(Uint(Uint8))
  const BLOB_TAG := Tag(Some(Prefix16), None, false, false)
  // hmacTokenPayload { Expiry uint32; Data []byte }
  const PAYLOAD := Struct(Field(PLAIN, Uint(Uint32), Field(BLOB_TAG, BLOB, End)))
  // hmacToken { Data, Sig []byte }
  const TOKEN := Struct(Field(BLOB_TAG, BLOB, Field(BLOB_TAG, BLOB, End)))

  // The output of HMAC-SHA256.
  type Digest = s: seq<byte> | |s| == 32 witness seq(32, _ => 0)

  datatype Baker = Baker(key: seq<byte>, mac: (seq<byte>, seq<byte>) -> Digest)

  datatype CookieError = TooLong | Malformed(cause: CodecError) | BadSignature | Expired

  datatype Cracked = Cracked(data: seq<byte>, expiry: nat)

  function Blob(bs: seq<byte>): (v: Value)
    ensures HasType(BLOB, v)
  {
    Elems(seq(|bs|, i requires 0 <= i < |bs| => Num(bs[i])))
  }

  function Octet(v: Value): byte
    requires HasType(Uint(Uint8), v)
  {
    assert Pow256(1) == 256 * Pow256(0);
    v.n
  }

  function Bytes(v: Value): (bs: seq<byte>)
    requires HasType(BLOB, v)
  {
    seq(|v.elems|, i requires 0 <= i < |v.elems| => Octet(v.elems[i]))
  }

  lemma BytesOfBlob(bs: seq<byte>)
    ensures Bytes(Blob(bs)) == bs
  {}

  lemma BlobOfBytes(v: Value)
    requires HasType(BLOB, v)
    ensures Blob(Bytes(v)) == v
  {
    forall i | 0 <= i < |v.elems| ensures Blob(Bytes(v)).elems[i] == v.elems[i] {
      assert HasType(Uint(Uint8), v.elems[i]);
    }
    assert Blob(Bytes(v)).elems == v.elems;
  }

  lemma {:induction false} BlobEncoding(bs: seq<byte>)
    ensures Encode.MarshalElems(Uint(Uint8), Blob(bs).elems, BigEndian) == Ok(bs)
    ensures FitsElems(Uint(Uint8), Blob(bs).elems, BigEndian)
    decreases |bs|
  {
    if bs != [] {
      assert Blob(bs).elems[1..] == Blob(bs[1..]).elems;
      BlobEncoding(bs[1..]);
      assert LittleBytes(1, bs[0]) == [bs[0]] + LittleBytes(0, bs[0] / 256);
      assert UintBytes(BigEndian, 1, bs[0]) == [bs[0]];
      assert [bs[0]] + bs[1..] == bs;
    }
  }

  function PayloadValue(expiry: nat, data: seq<byte>): (v: Value)
    requires expiry < 0x1_0000_0000
    ensures HasType(PAYLOAD, v)
  {
    var v := Record([Num(expiry), Blob(data)]);
    assert Pow256(4) == 0x1_0000_0000 by {
      WidthModulus(Prefix16);
      assert Pow256(4) == 256 * Pow256(3) && Pow256(3) == 256 * Pow256(2);
    }
    assert HasType(Uint(Uint32), v.fields[0]);
    assert HaveTypes(End, v.fields[1..][1..]);
    assert HaveTypes(PAYLOAD.fields.rest, v.fields[1..]);
    v
  }

  function TokenValue(data: seq<byte>, sig: seq<byte>): (v: Value)
    ensures HasType(TOKEN, v)
  {
    var v := Record([Blob(data), Blob(sig)]);
    assert HaveTypes(End, v.fields[1..][1..]);
    assert HaveTypes(TOKEN.fields.rest, v.fields[1..]);
    v
  }

  // What each of the two structs looks like on the wire.
  lemma PayloadEncoding(expiry: nat, data: seq<byte>)
    requires expiry < 0x1_0000_0000
    ensures Encode.Marshal(PAYLOAD, PayloadValue(expiry, data), PLAIN, BigEndian)
         == Ok(UintBytes(BigEndian, 4, expiry) + (Encode.Prefix(Prefix16, |data|, BigEndian) + data))
    ensures |data| < 0x1_0000 ==> Fits(PAYLOAD, PayloadValue(expiry, data), PLAIN, BigEndian)
    ensures Closed(PAYLOAD, PLAIN)
  {
    var vs := PayloadValue(expiry, data).fields;
    assert vs[1..] == [Blob(data)] && vs[1..][1..] == [];
    BlobEncoding(data);
    assert Encode.Marshal(BLOB, Blob(data), BLOB_TAG, BigEndian)
        == Ok(Encode.Prefix(Prefix16, |data|, BigEndian) + data);
    var last := Encode.Prefix(Prefix16, |data|, BigEndian) + data;
    assert last + [] == last;
    assert Encode.MarshalFields(Field(BLOB_TAG, BLOB, End), vs[1..], BigEndian) == Ok(last);
    assert FitsFields(Field(BLOB_TAG, BLOB, End), vs[1..], BigEndian) == Fits(BLOB, Blob(data), BLOB_TAG, BigEndian);
    assert Closed(BLOB, BLOB_TAG);
  }

  lemma TokenEncoding(data: seq<byte>, sig: seq<byte>)
    ensures Encode.Marshal(TOKEN, TokenValue(data, sig), PLAIN, BigEndian)
         == Ok((Encode.Prefix(Prefix16, |data|, BigEndian) + data) + (Encode.Prefix(Prefix16, |sig|, BigEndian) + sig))
    ensures |data| < 0x1_0000 && |sig| < 0x1_0000 ==> Fits(TOKEN, TokenValue(data, sig), PLAIN, BigEndian)
    ensures Closed(TOKEN, PLAIN)
  {
    var vs := TokenValue(data, sig).fields;
    assert vs[1..] == [Blob(sig)] && vs[1..][1..] == [];
    BlobEncoding(data);
    BlobEncoding(sig);
    var first := Encode.Prefix(Prefix16, |data|, BigEndian) + data;
    var last := Encode.Prefix(Prefix16, |sig|, BigEndian) + sig;
    assert Encode.Marshal(BLOB, Blob(data), BLOB_TAG, BigEndian) == Ok(first);
    assert Encode.Marshal(BLOB, Blob(sig), BLOB_TAG, BigEndian) == Ok(last);
    assert last + [] == last;
    assert Encode.MarshalFields(Field(BLOB_TAG, BLOB, End), vs[1..], BigEndian) == Ok(last);
    assert FitsFields(Field(BLOB_TAG, BLOB, End), vs[1..], BigEndian) == Fits(BLOB, Blob(sig), BLOB_TAG, BigEndian);
    assert Closed(BLOB, BLOB_TAG);
  }

  lemma DecodedToken(data: seq<byte>)
    ensures var d := Decode.Unmarshal(TOKEN, PLAIN, data, BigEndian);
            d.Got? ==> d.value.Record? && |d.value.fields| == 2
                       && HasType(BLOB, d.value.fields[0]) && HasType(BLOB, d.value.fields[1])
  {
    DecodedHasType(TOKEN, PLAIN, data, BigEndian);
    var d := Decode.Unmarshal(TOKEN, PLAIN, data, BigEndian);
    if d.Got? { assert HaveTypes(TOKEN.fields.rest, d.value.fields[1..]); }
  }

  lemma DecodedPayload(data: seq<byte>)
    ensures var d := Decode.Unmarshal(PAYLOAD, PLAIN, data, BigEndian);
            d.Got? ==> d.value.Record? && |d.value.fields| == 2
                       && d.value.fields[0].Num? && HasType(BLOB, d.value.fields[1])
  {
    DecodedHasType(PAYLOAD, PLAIN, data, BigEndian);
    var d := Decode.Unmarshal(PAYLOAD, PLAIN, data, BigEndian);
    if d.Got? { assert HaveTypes(PAYLOAD.fields.rest, d.value.fields[1..]); }
  }

  // uint32(t.Unix()) for an instant in nanoseconds.
  function UnixSeconds32(t: nat): (s: nat)
    ensures s < 0x1_0000_0000
  {
    (t / NANOS_PER_SECOND) % 0x1_0000_0000
  }

  function Zeros(n: nat): (z: seq<byte>)
    ensures |z| == n
  {
    seq(n, _ => 0)
  }

  function Issue(b: Baker, data: seq<byte>, now: nat, ttl: nat): Result<seq<byte>, CookieError> {
    match Encode.Marshal(PAYLOAD, PayloadValue(UnixSeconds32(now + ttl), data), PLAIN, BigEndian)
    case Err(x) => Err(Malformed(x))
    case Ok(payload) =>
      match Encode.Marshal(TOKEN, TokenValue(payload, b.mac(b.key, payload)), PLAIN, BigEndian)
      case Err(x) => Err(Malformed(x))
      case Ok(token) =>
        if |token| > COOKIE_LEN then Err(TooLong) else Ok(token + Zeros(COOKIE_LEN - |token|))
  }

  // The two byte fields a token decodes to, whatever the bytes are.
  function ReadToken(data: seq<byte>): Result<(seq<byte>, seq<byte>), CookieError> {
    match Decode.Unmarshal(TOKEN, PLAIN, data, BigEndian)
    case Failed(x, _) => Err(Malformed(x))
    case Got(v, _) =>
      DecodedToken(data);
      Ok((Bytes(v.fields[0]), Bytes(v.fields[1])))
  }

  function ReadPayload(data: seq<byte>): Result<Cracked, CookieError> {
    match Decode.Unmarshal(PAYLOAD, PLAIN, data, BigEndian)
    case Failed(x, _) => Err(Malformed(x))
    case Got(v, _) =>
      DecodedPayload(data);
      Ok(Cracked(Bytes(v.fields[1]), v.fields[0].n))
  }

  function Crack(b: Baker, data: seq<byte>, now: nat): Result<Cracked, CookieError> {
    match ReadToken(data)
    case Err(x) => Err(x)
    case Ok(token) =>
      if token.1 != b.mac(b.key, token.0) then Err(BadSignature)
      else
        match ReadPayload(token.0)
        case Err(x) => Err(x)
        case Ok(p) => if p.expiry * NANOS_PER_SECOND < now then Err(Expired) else Ok(p)
  }

  // A token is minted for exactly the payloads of at most 214 bytes, and is always 256 bytes long.
  lemma IssueExactly(b: Baker, data: seq<byte>, now: nat, ttl: nat)
    ensures Issue(b, data, now, ttl).Ok? <==> |data| <= 214
    ensures |data| > 214 ==> Issue(b, data, now, ttl) == Err(TooLong)
    ensures |data| <= 214 ==> |Issue(b, data, now, ttl).value| == COOKIE_LEN
  {
    var expiry := UnixSeconds32(now + ttl);
    PayloadEncoding(expiry, data);
    var payload := UintBytes(BigEndian, 4, expiry) + (Encode.Prefix(Prefix16, |data|, BigEndian) + data);
    TokenEncoding(payload, b.mac(b.key, payload));
  }

  // A minted token, padding and all, cracks under the same key to its payload and its expiry second, until that
  // second has passed.
  lemma CrackIssued(b: Baker, data: seq<byte>, now: nat, ttl: nat, later: nat)
    requires |data| <= 214
    ensures Issue(b, data, now, ttl).Ok?
    ensures Crack(b, Issue(b, data, now, ttl).value, later)
         == if UnixSeconds32(now + ttl) * NANOS_PER_SECOND < later then Err(Expired)
            else Ok(Cracked(data, UnixSeconds32(now + ttl)))
  {
    IssueExactly(b, data, now, ttl);
    var expiry := UnixSeconds32(now + ttl);
    PayloadEncoding(expiry, data);
    var payload := UintBytes(BigEndian, 4, expiry) + (Encode.Prefix(Prefix16, |data|, BigEndian) + data);
    var sig := b.mac(b.key, payload);
    TokenEncoding(payload, sig);
    var token := Encode.Marshal(TOKEN, TokenValue(payload, sig), PLAIN, BigEndian).value;
    DecodeEncoded(TOKEN, TokenValue(payload, sig), PLAIN, BigEndian, Zeros(COOKIE_LEN - |token|));
    BytesOfBlob(payload);
    BytesOfBlob(sig);
    DecodeEncoded(PAYLOAD, PayloadValue(expiry, data), PLAIN, BigEndian, []);
    assert payload + [] == payload;
    BytesOfBlob(data);
  }

  lemma TokenIsPrefix(token: seq<byte>, body: seq<byte>, sig: seq<byte>)
    requires Decode.Unmarshal(TOKEN, PLAIN, token, BigEndian).Got?
    requires Decode.Unmarshal(TOKEN, PLAIN, token, BigEndian).value == TokenValue(body, sig)
    ensures Encode.Marshal(TOKEN, TokenValue(body, sig), PLAIN, BigEndian).Ok?
    ensures Encode.Marshal(TOKEN, TokenValue(body, sig), PLAIN, BigEndian).value <= token
  {
    assert Tight(BLOB, BLOB_TAG) && Closed(BLOB, BLOB_TAG);
    assert TightFields(TOKEN.fields.rest) && ClosedFields(TOKEN.fields.rest);
    DecodedIsCanonical(TOKEN, PLAIN, token, BigEndian);
  }

  // Nothing cracks unless it carries the MAC of what it carries: an accepted token starts with the encoding of
  // some body and of that body's MAC under the baker's key.
  lemma CrackedIsAuthentic(b: Baker, token: seq<byte>, now: nat)
    requires Crack(b, token, now).Ok?
    ensures exists body ::
      && Encode.Marshal(TOKEN, TokenValue(body, b.mac(b.key, body)), PLAIN, BigEndian).Ok?
      && Encode.Marshal(TOKEN, TokenValue(body, b.mac(b.key, body)), PLAIN, BigEndian).value <= token
  {
    DecodedToken(token);
    var d := Decode.Unmarshal(TOKEN, PLAIN, token, BigEndian);
    var body, sig := Bytes(d.value.fields[0]), Bytes(d.value.fields[1]);
    var v := TokenValue(body, sig);
    BlobOfBytes(d.value.fields[0]);
    BlobOfBytes(d.value.fields[1]);
    assert d.value == v by { assert d.value.fields == v.fields; }
    TokenIsPrefix(token, body, sig);
  }

  // The two calls as they run, on the stream encoder and decoder.
  class HMACCookieBaker {
    const baker: Baker

    constructor (baker: Baker)
      ensures this.baker == baker
    {
      this.baker := baker;
    }

    method Mint(data: seq<byte>, now: nat, ttl: nat) returns (res: Result<seq<byte>, CookieError>)
      ensures res == Issue(baker, data, now, ttl)
    {
      var buf := new CodecStreams.Writer();
      var err := CodecStreams.Marshal(PAYLOAD, PayloadValue(UnixSeconds32(now + ttl), data), PLAIN, buf, BigEndian);
      if err.Some? { return Err(Malformed(err.value)); }
      var payload := buf.out;
      assert payload == Encode.Marshal(PAYLOAD, PayloadValue(UnixSeconds32(now + ttl), data), PLAIN, BigEndian).value;
      var sig := baker.mac(baker.key, payload);
      buf := new CodecStreams.Writer();
      err := CodecStreams.Marshal(TOKEN, TokenValue(payload, sig), PLAIN, buf, BigEndian);
      if err.Some? { return Err(Malformed(err.value)); }
      assert buf.out == Encode.Marshal(TOKEN, TokenValue(payload, sig), PLAIN, BigEndian).value;
      if |buf.out| > COOKIE_LEN { return Err(TooLong); }
      buf.Write(Zeros(COOKIE_LEN - |buf.out|));
      res := Ok(buf.out);
    }

    method Verify(data: seq<byte>, now: nat) returns (res: Result<Cracked, CookieError>)
      ensures res == Crack(baker, data, now)
    {
      assert LoopSafeFields(TOKEN.fields.rest) && LoopSafeFields(PAYLOAD.fields.rest);
      var r := new CodecStreams.Reader(data);
      var token := CodecStreams.Unmarshal(TOKEN, PLAIN, r, BigEndian);
      if token.Err? { return Err(Malformed(token.error)); }
      DecodedToken(data);
      var body, sig := Bytes(token.value.fields[0]), Bytes(token.value.fields[1]);
      if sig != baker.mac(baker.key, body) { return Err(BadSignature); }
      r := new CodecStreams.Reader(body);
      var payload := CodecStreams.Unmarshal(PAYLOAD, PLAIN, r, BigEndian);
      if payload.Err? { return Err(Malformed(payload.error)); }
      DecodedPayload(body);
      var expiry := payload.value.fields[0].n;
      if expiry * NANOS_PER_SECOND < now { return Err(Expired); }
      res := Ok(Cracked(Bytes(payload.value.fields[1]), expiry));
    }
  }

  // ---- What the token is ----

  // The token: a payload of expiry second and data, and its MAC, each after its length, padded to 256 bytes.
  lemma IssuedBytes(b: Baker, data: seq<byte>, now: nat, ttl: nat)
    requires |data| <= 214 && now + ttl < 0x1_0000_0000 * 1_000_000_000
    ensures var payload := UintBytes(BigEndian, 4, (now + ttl) / 1_000_000_000) + (UintBytes(BigEndian, 2,
            |data|) + data);
      Issue(b, data, now, ttl)
        == Ok((UintBytes(BigEndian, 2, |payload|) + payload) + (UintBytes(BigEndian, 2, 32) + b.mac(b.key, payload))
              + seq(214 - |data|, _ => 0))
  {
    var expiry := (now + ttl) / 1_000_000_000;
    WholeSeconds(now + ttl, 0);
    assert expiry < 0x1_0000_0000;
    PayloadEncoding(expiry, data);
    PrefixOf(|data|);
    var payload := UintBytes(BigEndian, 4, expiry) + (UintBytes(BigEndian, 2, |data|) + data);
    TokenEncoding(payload, b.mac(b.key, payload));
    PrefixOf(|payload|);
    PrefixOf(32);
  }

  lemma PrefixOf(n: nat)
    requires n < 0x1_0000
    ensures Encode.Prefix(Prefix16, n, BigEndian) == UintBytes(BigEndian, 2, n)
  {
    assert n % 0x1_0000 == n;
  }

  // A token is accepted until its life is over, less at most a second, and never afterwards.
  lemma AcceptedWhileAlive(b: Baker, data: seq<byte>, now: nat, ttl: nat, later: nat)
    requires |data| <= 214 && now + ttl < 0x1_0000_0000 * 1_000_000_000
    ensures Issue(b, data, now, ttl).Ok?
    ensures later + 1_000_000_000 <= now + ttl ==> Crack(b, Issue(b, data, now, ttl).value, later).Ok?
    ensures later > now + ttl ==> Crack(b, Issue(b, data, now, ttl).value, later) == Err(Expired)
  {
    WholeSeconds(now + ttl, later);
    var late := UnixSeconds32(now + ttl) * NANOS_PER_SECOND < later;
    assert later + 1_000_000_000 <= now + ttl ==> !late;
    assert later > now + ttl ==> late;
    CrackIssued(b, data, now, ttl, later);
  }

  lemma WholeSeconds(t: nat, later: nat)
    requires t < 0x1_0000_0000 * 1_000_000_000
    ensures UnixSeconds32(t) == t / 1_000_000_000
    ensures later + 1_000_000_000 <= t ==> !(UnixSeconds32(t) * NANOS_PER_SECOND < later)
    ensures later > t ==> UnixSeconds32(t) * NANOS_PER_SECOND < later
  {
    assert t / 1_000_000_000 < 0x1_0000_0000;
  }
}
