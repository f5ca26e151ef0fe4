/** The text of an `oscar` struct tag and the tag record it parses to. */
module TagParser {
  import opened Common
  import opened Schema

  // A tag with the name of its decode exception, "" when it has none.
  datatype OscarTag = OscarTag(tag: Tag, quirk: string)

  const NO_TAG := OscarTag(PLAIN, "")

  type Parsed = Result<OscarTag, CodecError>

  // ---- Splitting and trimming ----

  predicate Space(c: char) { c == ' ' || c == '\t' || c == '\n' || c == '\r' }

  function TrimLeft(s: string): string {
    if s != "" && Space(s[0]) then TrimLeft(s[1..]) else s
  }

  function TrimRight(s: string): string {
    if s != "" && Space(s[|s| - 1]) then TrimRight(s[..|s| - 1]) else s
  }

  function Trim(s: string): string { TrimRight(TrimLeft(s)) }

  // A text that trimming leaves as it is.
  predicate Trimmed(s: string) { s != "" && !Space(s[0]) && !Space(s[|s| - 1]) }

  // The position of the first c, or the length.
  function IndexOf(s: string, c: char): (i: nat)
    ensures i <= |s| && c !in s[..i] && (i < |s| ==> s[i] == c)
  {
    if s == "" || s[0] == c then 0
    else
      var i := IndexOf(s[1..], c);
      assert s[..i + 1] == [s[0]] + s[1..][..i];
      i + 1
  }

  function Split(s: string): (r: seq<string>)
    ensures r != []
    decreases |s|
  {
    var i := IndexOf(s, ',');
    if i == |s| then [s] else [s[..i]] + Split(s[i + 1..])
  }

  // ---- Parsing ----

  function ParseWidth(v: string): Option<Width> {
    if v == "uint8" then Some(Prefix8) else if v == "uint16" then Some(Prefix16) else None
  }

  // One comma-separated piece: blank, a key with a value, or a flag. A later prefix replaces an earlier one; a second
  // quirk is an error.
  function ParsePiece(t: OscarTag, piece: string): Parsed {
    var kv := Trim(piece);
    var i := IndexOf(kv, '=');
    if kv == "" then Ok(t)
    else if i < |kv| then
      var key, v := Trim(kv[..i]), Trim(kv[i + 1..]);
      if key == "len_prefix" then
        match ParseWidth(v)
        case None => Err(InvalidStructTag)
        case w => Ok(t.(tag := t.tag.(len := w)))
      else if key == "count_prefix" then
        match ParseWidth(v)
        case None => Err(InvalidStructTag)
        case w => Ok(t.(tag := t.tag.(count := w)))
      else if key == "quirk" && v != "" && t.quirk == "" then Ok(t.(quirk := v))
      else Err(InvalidStructTag)
    else if kv == "optional" then Ok(t.(tag := t.tag.(optional := true)))
    else if kv == "nullterm" then Ok(t.(tag := t.tag.(nullterm := true)))
    else Err(InvalidStructTag)
  }

  function ParsePieces(t: OscarTag, pieces: seq<string>): Parsed
    decreases |pieces|
  {
    if pieces == [] then Ok(t)
    else
      match ParsePiece(t, pieces[0])
      case Err(x) => Err(x)
      case Ok(t') => ParsePieces(t', pieces[1..])
  }

  function Parse(val: string): Parsed {
    match ParsePieces(NO_TAG, Split(val))
    case Ok(t) => if t.tag.Rejected() then Err(InvalidStructTag) else Ok(t)
    case e => e
  }

  // parseOSCARTag: the loop over the pieces, filling the record as it goes.
  method ParseOSCARTag(val: string) returns (res: Parsed)
    ensures res == Parse(val)
  {
    var t, i, pieces := NO_TAG, 0, Split(val);
    assert pieces[0..] == pieces;
    while i < |pieces|
      invariant 0 <= i <= |pieces|
      invariant ParsePieces(NO_TAG, pieces) == ParsePieces(t, pieces[i..])
    {
      assert pieces[i..][1..] == pieces[i + 1..];
      var p := ParsePiece(t, pieces[i]);
      if p.Err? { return p; }
      t := p.value;
      i := i + 1;
    }
    if t.tag.len.Some? && t.tag.count.Some? { return Err(InvalidStructTag); }
    return Ok(t);
  }

  // ---- Writing a tag down ----

  function WidthName(w: Width): string { if w.Prefix8? then "uint8" else "uint16" }

  function Render(t: OscarTag): seq<string> {
    (if t.tag.len.Some? then ["len_prefix" + "=" + WidthName(t.tag.len.value)] else [])
    + (if t.tag.count.Some? then ["count_prefix" + "=" + WidthName(t.tag.count.value)] else [])
    + (if t.tag.optional then ["optional"] else [])
    + (if t.tag.nullterm then ["nullterm"] else [])
    + (if t.quirk != "" then ["quirk" + "=" + t.quirk] else [])
  }

  function Join(pieces: seq<string>): string {
    if pieces == [] then "" else if |pieces| == 1 then pieces[0] else pieces[0] + "," + Join(pieces[1..])
  }

  lemma IndexAt(s: string, c: char, a: string, b: string)
    requires s == a + [c] + b && c !in a
    ensures IndexOf(s, c) == |a|
  {
    assert s[|a|] == c;
    assert forall j :: 0 <= j < |a| ==> s[j] == a[j] && a[j] in a;
    forall k | |a| < k <= |s| ensures c in s[..k] { assert s[..k][|a|] == c; }
  }

  lemma {:induction false} SplitJoin(pieces: seq<string>)
    requires pieces != [] && forall i :: 0 <= i < |pieces| ==> ',' !in pieces[i]
    ensures Split(Join(pieces)) == pieces
  {
    if |pieces| == 1 {
      assert IndexOf(pieces[0], ',') == |pieces[0]|;
    } else {
      var s := Join(pieces);
      IndexAt(s, ',', pieces[0], Join(pieces[1..]));
      assert s[..|pieces[0]|] == pieces[0] && s[|pieces[0]| + 1..] == Join(pieces[1..]);
      SplitJoin(pieces[1..]);
    }
  }

  // A key and a value, written with "=" between them, are found again; the value may contain more of them.
  lemma KeyAndValue(t: OscarTag, key: string, v: string)
    requires Trimmed(key) && Trimmed(v) && '=' !in key
    ensures var kv := key + "=" + v;
      Trim(kv) == kv && IndexOf(kv, '=') == |key| && Trim(kv[..|key|]) == key && Trim(kv[|key| + 1..]) == v
  {
    var kv := key + "=" + v;
    assert kv[0] == key[0] && kv[|kv| - 1] == v[|v| - 1];
    IndexAt(kv, '=', key, v);
    assert kv[..|key|] == key && kv[|key| + 1..] == v;
  }

  predicate Writable(t: OscarTag) {
    t.quirk != "" ==> Trimmed(t.quirk) && ',' !in t.quirk
  }

  lemma LenPiece(t: OscarTag, w: Width)
    ensures ParsePiece(t, "len_prefix" + "=" + WidthName(w)) == Ok(t.(tag := t.tag.(len := Some(w))))
  {
    KeyAndValue(t, "len_prefix", WidthName(w));
    assert "uint8" != "uint16" by { assert |"uint8"| != |"uint16"|; }
  }

  lemma CountPiece(t: OscarTag, w: Width)
    ensures ParsePiece(t, "count_prefix" + "=" + WidthName(w)) == Ok(t.(tag := t.tag.(count := Some(w))))
  {
    KeyAndValue(t, "count_prefix", WidthName(w));
    assert "count_prefix" != "len_prefix" by { assert |"count_prefix"| != |"len_prefix"|; }
    assert "uint8" != "uint16" by { assert |"uint8"| != |"uint16"|; }
  }

  lemma QuirkPiece(t: OscarTag, q: string)
    requires t.quirk == "" && Trimmed(q)
    ensures ParsePiece(t, "quirk" + "=" + q) == Ok(t.(quirk := q))
  {
    KeyAndValue(t, "quirk", q);
    assert |"quirk"| != |"len_prefix"| && |"quirk"| != |"count_prefix"|;
  }

  lemma OptionalPiece(t: OscarTag)
    ensures ParsePiece(t, "optional") == Ok(t.(tag := t.tag.(optional := true)))
  {
    assert '=' !in "optional";
  }

  lemma NulltermPiece(t: OscarTag)
    ensures ParsePiece(t, "nullterm") == Ok(t.(tag := t.tag.(nullterm := true)))
  {
    assert '=' !in "nullterm" && "optional"[0] != "nullterm"[0];
  }

  lemma {:induction false} ParseAppended(t: OscarTag, a: seq<string>, b: seq<string>)
    ensures ParsePieces(t, a + b)
         == match ParsePieces(t, a) case Ok(t') => ParsePieces(t', b) case Err(x) => Err(x)
    decreases |a|
  {
    if a == [] {
      assert a + b == b;
    } else {
      assert (a + b)[1..] == a[1..] + b;
      var p := ParsePiece(t, a[0]);
      if p.Ok? { ParseAppended(p.value, a[1..], b); }
    }
  }

  lemma OnePiece(t: OscarTag, piece: string)
    ensures ParsePieces(t, [piece]) == ParsePiece(t, piece)
  {
    assert [piece][1..] == [];
  }

  lemma RenderParses(t: OscarTag)
    requires Writable(t)
    ensures ParsePieces(NO_TAG, Render(t)) == Ok(t)
  {
    var a := if t.tag.len.Some? then ["len_prefix" + "=" + WidthName(t.tag.len.value)] else [];
    var b := if t.tag.count.Some? then ["count_prefix" + "=" + WidthName(t.tag.count.value)] else [];
    var c := if t.tag.optional then ["optional"] else [];
    var d := if t.tag.nullterm then ["nullterm"] else [];
    var e := if t.quirk != "" then ["quirk" + "=" + t.quirk] else [];
    var t1 := NO_TAG.(tag := PLAIN.(len := t.tag.len));
    var t2 := t1.(tag := t1.tag.(count := t.tag.count));
    var t3 := t2.(tag := t2.tag.(optional := t.tag.optional));
    var t4 := t3.(tag := t3.tag.(nullterm := t.tag.nullterm));
    if a != [] { OnePiece(NO_TAG, a[0]); LenPiece(NO_TAG, t.tag.len.value); }
    if b != [] { OnePiece(t1, b[0]); CountPiece(t1, t.tag.count.value); }
    if c != [] { OnePiece(t2, c[0]); OptionalPiece(t2); }
    if d != [] { OnePiece(t3, d[0]); NulltermPiece(t3); }
    if e != [] { OnePiece(t4, e[0]); QuirkPiece(t4, t.quirk); }
    ParseAppended(NO_TAG, a + b + c + d, e);
    ParseAppended(NO_TAG, a + b + c, d);
    ParseAppended(NO_TAG, a + b, c);
    ParseAppended(NO_TAG, a, b);
  }

  lemma RenderHasNoCommas(t: OscarTag)
    requires Writable(t)
    ensures forall i :: 0 <= i < |Render(t)| ==> ',' !in Render(t)[i]
  {
    assert ',' !in "len_prefix" && ',' !in "count_prefix" && ',' !in "=" && ',' !in "uint8" && ',' !in "uint16";
    assert ',' !in "optional" && ',' !in "nullterm" && ',' !in "quirk";
    forall p | p in Render(t) ensures ',' !in p {
      if t.tag.len.Some? && p == "len_prefix" + "=" + WidthName(t.tag.len.value) {
      } else if t.tag.count.Some? && p == "count_prefix" + "=" + WidthName(t.tag.count.value) {
      } else if t.quirk != "" && p == "quirk" + "=" + t.quirk {
      }
    }
  }

  // Any tag written down parses back to itself, unless it has both prefixes, which is refused.
  lemma ParseRenderExactly(t: OscarTag)
    requires Writable(t)
    ensures Parse(Join(Render(t))) == if t.tag.Rejected() then Err(InvalidStructTag) else Ok(t)
  {
    if Render(t) == [] {
      assert t == NO_TAG;
      assert Split("") == [""];
      OnePiece(NO_TAG, "");
    } else {
      RenderHasNoCommas(t);
      SplitJoin(Render(t));
      RenderParses(t);
    }
  }

  // ---- What each piece means ----

  predicate Blank(s: string) { forall i :: 0 <= i < |s| ==> Space(s[i]) }

  lemma {:induction false} TrimLeftExactly(s: string) returns (a: string)
    ensures Blank(a) && s == a + TrimLeft(s) && (TrimLeft(s) != "" ==> !Space(TrimLeft(s)[0]))
  {
    if s != "" && Space(s[0]) {
      var b := TrimLeftExactly(s[1..]);
      a := [s[0]] + b;
      assert s == [s[0]] + s[1..];
    } else {
      a := "";
    }
  }

  lemma {:induction false} TrimRightExactly(s: string) returns (b: string)
    ensures Blank(b) && s == TrimRight(s) + b
    ensures TrimRight(s) != "" ==> !Space(TrimRight(s)[|TrimRight(s)| - 1]) && TrimRight(s)[0] == s[0]
  {
    if s != "" && Space(s[|s| - 1]) {
      var c := TrimRightExactly(s[..|s| - 1]);
      b := c + [s[|s| - 1]];
      assert s == s[..|s| - 1] + [s[|s| - 1]];
    } else {
      b := "";
    }
  }

  // Trimming takes white space off both ends, and all of it.
  lemma TrimExactly(s: string) returns (a: string, b: string)
    ensures Blank(a) && Blank(b) && s == a + Trim(s) + b && (Trim(s) == "" || Trimmed(Trim(s)))
  {
    a := TrimLeftExactly(s);
    b := TrimRightExactly(TrimLeft(s));
  }

  // A piece without "=" is blank, "optional" or "nullterm"; everything else is refused.
  lemma FlagExactly(t: OscarTag, piece: string)
    requires '=' !in Trim(piece)
    ensures var r := ParsePiece(t, piece);
      if Trim(piece) == "" then r == Ok(t)
      else if Trim(piece) == "optional" then r == Ok(t.(tag := t.tag.(optional := true)))
      else if Trim(piece) == "nullterm" then r == Ok(t.(tag := t.tag.(nullterm := true)))
      else r == Err(InvalidStructTag)
  {
    var kv := Trim(piece);
    NotFound(kv, '=');
  }

  lemma {:induction false} NotFound(s: string, c: char)
    requires c !in s
    ensures IndexOf(s, c) == |s|
  {
    if s != "" { NotFound(s[1..], c); }
  }

  // A key and its value: a prefix of one of the two widths, or the first quirk, which has a name; everything else is
  // refused.
  lemma KeyExactly(t: OscarTag, key: string, v: string)
    requires Trimmed(key) && Trimmed(v) && '=' !in key
    ensures var r := ParsePiece(t, key + "=" + v);
      if key == "len_prefix" && v == "uint8" then r == Ok(t.(tag := t.tag.(len := Some(Prefix8))))
      else if key == "len_prefix" && v == "uint16" then r == Ok(t.(tag := t.tag.(len := Some(Prefix16))))
      else if key == "count_prefix" && v == "uint8" then r == Ok(t.(tag := t.tag.(count := Some(Prefix8))))
      else if key == "count_prefix" && v == "uint16" then r == Ok(t.(tag := t.tag.(count := Some(Prefix16))))
      else if key == "quirk" && t.quirk == "" then r == Ok(t.(quirk := v))
      else r == Err(InvalidStructTag)
  {
    KeyAndValue(t, key, v);
  }

  // A key without a value is refused.
  lemma NoValue(t: OscarTag, key: string)
    requires Trimmed(key) && '=' !in key
    ensures ParsePiece(t, key + "=") == Err(InvalidStructTag)
  {
    var kv := key + "=";
    assert kv[0] == key[0] && kv[|kv| - 1] == '=';
    IndexAt(kv, '=', key, "");
    assert kv[..|key|] == key && kv[|key| + 1..] == "";
  }
}
