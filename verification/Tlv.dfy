/** TLV lists and the order attribute that a feedbag group keeps in one of them. */
module Tlv {
  import opened Common
  import opened Schema
  import opened Integers

  type u16 = x: int | 0 <= x < 0x1_0000

  datatype TLV = TLV(tag: u16, value: seq<byte>)

  const ORDER: u16 := 0x00C8

  // The value of the first TLV with the tag.
  function Bytes(list: seq<TLV>, tag: u16): Option<seq<byte>> {
    if list == [] then None
    else if list[0].tag == tag then Some(list[0].value)
    else Bytes(list[1..], tag)
  }

  predicate HasTag(list: seq<TLV>, tag: u16) { Bytes(list, tag).Some? }

  // Gives every TLV with the tag the new value.
  function Overwrite(list: seq<TLV>, tlv: TLV): (r: seq<TLV>)
    ensures |r| == |list|
  {
    if list == [] then []
    else [if list[0].tag == tlv.tag then tlv else list[0]] + Overwrite(list[1..], tlv)
  }

  function Set(list: seq<TLV>, tlv: TLV): seq<TLV> {
    if HasTag(list, tlv.tag) then Overwrite(list, tlv) else list + [tlv]
  }

  function Remove(list: seq<TLV>, tag: u16): seq<TLV> {
    if list == [] then []
    else if list[0].tag == tag then Remove(list[1..], tag)
    else [list[0]] + Remove(list[1..], tag)
  }

  // ---- What the edits do to lookups ----

  lemma {:induction false} BytesOverwrite(list: seq<TLV>, tlv: TLV, tag: u16)
    ensures Bytes(Overwrite(list, tlv), tag)
         == if tag == tlv.tag && HasTag(list, tag) then Some(tlv.value) else Bytes(list, tag)
  {
    if list != [] { BytesOverwrite(list[1..], tlv, tag); }
  }

  lemma {:induction false} BytesAppend(list: seq<TLV>, tlv: TLV, tag: u16)
    ensures Bytes(list + [tlv], tag)
         == if HasTag(list, tag) then Bytes(list, tag) else if tlv.tag == tag then Some(tlv.value) else None
  {
    if list == [] {
      assert list + [tlv] == [tlv] && [tlv][1..] == [];
    } else {
      assert (list + [tlv])[1..] == list[1..] + [tlv];
      BytesAppend(list[1..], tlv, tag);
    }
  }

  // After Set, the tag reads back the new value and no other tag reads differently.
  lemma BytesSet(list: seq<TLV>, tlv: TLV, tag: u16)
    ensures Bytes(Set(list, tlv), tag) == if tag == tlv.tag then Some(tlv.value) else Bytes(list, tag)
  {
    BytesOverwrite(list, tlv, tag);
    BytesAppend(list, tlv, tag);
  }

  // After Remove, the tag is gone and no other tag reads differently.
  lemma {:induction false} BytesRemove(list: seq<TLV>, gone: u16, tag: u16)
    ensures Bytes(Remove(list, gone), tag) == if tag == gone then None else Bytes(list, tag)
  {
    if list != [] { BytesRemove(list[1..], gone, tag); }
  }

  // ---- Lists of 16-bit ids in one TLV value ----

  function EncodeIds(ids: seq<u16>): seq<byte> {
    if ids == [] then [] else UintBytes(BigEndian, 2, ids[0]) + EncodeIds(ids[1..])
  }

  // An odd last byte is ignored.
  function DecodeIds(bs: seq<byte>): seq<u16> {
    if |bs| < 2 then []
    else (WidthModulus(Prefix16); [UintValue(BigEndian, bs[..2])]) + DecodeIds(bs[2..])
  }

  lemma {:induction false} IdsRoundTrip(ids: seq<u16>)
    ensures DecodeIds(EncodeIds(ids)) == ids
  {
    if ids != [] {
      var bs := EncodeIds(ids);
      assert bs[..2] == UintBytes(BigEndian, 2, ids[0]) && bs[2..] == EncodeIds(ids[1..]);
      WidthModulus(Prefix16);
      UintRoundTrip(BigEndian, 2, ids[0]);
      IdsRoundTrip(ids[1..]);
      assert [ids[0]] + ids[1..] == ids;
    }
  }

  // The ids in the order attribute, none when it is absent.
  function Order(list: seq<TLV>): seq<u16> {
    match Bytes(list, ORDER)
    case None => []
    case Some(bs) => DecodeIds(bs)
  }

  function SetOrder(list: seq<TLV>, ids: seq<u16>): seq<TLV> {
    Set(list, TLV(ORDER, EncodeIds(ids)))
  }

  lemma OrderOfSetOrder(list: seq<TLV>, ids: seq<u16>)
    ensures Order(SetOrder(list, ids)) == ids
  {
    BytesSet(list, TLV(ORDER, EncodeIds(ids)), ORDER);
    IdsRoundTrip(ids);
  }

  lemma OrderUntouched(list: seq<TLV>, tlv: TLV)
    requires tlv.tag != ORDER
    ensures Order(Set(list, tlv)) == Order(list)
    ensures Order(Remove(list, tlv.tag)) == Order(list)
  {
    BytesSet(list, tlv, ORDER);
    BytesRemove(list, tlv.tag, ORDER);
  }

  // The ids other than one.
  function Without(ids: seq<u16>, id: u16): (r: seq<u16>)
    ensures id !in r
    ensures forall x :: x != id ==> (x in r <==> x in ids)
  {
    if ids == [] then []
    else if ids[0] == id then Without(ids[1..], id)
    else [ids[0]] + Without(ids[1..], id)
  }

  predicate Distinct(ids: seq<u16>) {
    forall i, j :: 0 <= i < j < |ids| ==> ids[i] != ids[j]
  }

  lemma {:induction false} WithoutDistinct(ids: seq<u16>, id: u16)
    requires Distinct(ids)
    ensures Distinct(Without(ids, id))
  {
    if ids != [] {
      WithoutDistinct(ids[1..], id);
      var r := Without(ids[1..], id);
      assert ids[0] !in ids[1..];
      assert forall j :: 0 <= j < |r| ==> r[j] in r;
    }
  }

  // ids with `id` moved to just before the first `before`, or to the end when there is none.
  function MovedBefore(ids: seq<u16>, id: u16, before: u16): (r: seq<u16>)
  {
    InsertBefore(Without(ids, id), id, before)
  }

  function InsertBefore(ids: seq<u16>, id: u16, before: u16): seq<u16> {
    if ids == [] then [id]
    else if ids[0] == before then [id] + ids
    else [ids[0]] + InsertBefore(ids[1..], id, before)
  }

  lemma {:induction false} InsertBeforeDistinct(ids: seq<u16>, id: u16, before: u16)
    requires Distinct(ids) && id !in ids
    ensures Distinct(InsertBefore(ids, id, before))
    ensures forall x :: x in InsertBefore(ids, id, before) <==> x == id || x in ids
  {
    if ids != [] && ids[0] != before {
      InsertBeforeDistinct(ids[1..], id, before);
      var r := InsertBefore(ids[1..], id, before);
      assert ids[0] !in ids[1..];
      assert forall j :: 0 <= j < |r| ==> r[j] in r;
    }
  }

  // Moving within the order neither loses, duplicates nor adds an id.
  lemma MovedBeforeKeepsIds(ids: seq<u16>, id: u16, before: u16)
    requires Distinct(ids) && id in ids
    ensures Distinct(MovedBefore(ids, id, before))
    ensures forall x :: x in MovedBefore(ids, id, before) <==> x in ids
    ensures before != id && before in ids ==>
              exists i :: 0 <= i < |MovedBefore(ids, id, before)| - 1
                && MovedBefore(ids, id, before)[i] == id && MovedBefore(ids, id, before)[i + 1] == before
  {
    WithoutDistinct(ids, id);
    InsertBeforeDistinct(Without(ids, id), id, before);
    if before != id && before in ids { InsertBeforeAdjacent(Without(ids, id), id, before); }
  }

  lemma {:induction false} InsertBeforeAdjacent(ids: seq<u16>, id: u16, before: u16)
    requires before in ids
    ensures exists i :: 0 <= i < |InsertBefore(ids, id, before)| - 1
              && InsertBefore(ids, id, before)[i] == id && InsertBefore(ids, id, before)[i + 1] == before
  {
    var r := InsertBefore(ids, id, before);
    if ids[0] == before {
      assert r[0] == id && r[1] == before;
    } else {
      InsertBeforeAdjacent(ids[1..], id, before);
      var r' := InsertBefore(ids[1..], id, before);
      var i :| 0 <= i < |r'| - 1 && r'[i] == id && r'[i + 1] == before;
      assert r[i + 1] == id && r[i + 2] == before;
    }
  }

  // ---- Where Set and Remove leave the others ----

  // Set gives every TLV of the tag the value in its place, or appends one when there is none.
  lemma {:induction false} OverwriteInPlace(list: seq<TLV>, tlv: TLV, i: nat)
    requires i < |list|
    ensures Overwrite(list, tlv)[i] == if list[i].tag == tlv.tag then tlv else list[i]
  {
    if i > 0 { OverwriteInPlace(list[1..], tlv, i - 1); }
  }

  lemma SetInPlace(list: seq<TLV>, tlv: TLV)
    ensures HasTag(list, tlv.tag) ==>
              |Set(list, tlv)| == |list|
              && forall i :: 0 <= i < |list| ==> Set(list, tlv)[i] == if list[i].tag == tlv.tag then tlv else list[i]
    ensures !HasTag(list, tlv.tag) ==> Set(list, tlv) == list + [tlv]
  {
    forall i | 0 <= i < |list|
      ensures Overwrite(list, tlv)[i] == if list[i].tag == tlv.tag then tlv else list[i]
    {
      OverwriteInPlace(list, tlv, i);
    }
  }

  // Remove takes the TLVs of the tag out and keeps the order of the others.
  lemma RemoveInPlace(x: TLV, list: seq<TLV>, tag: u16)
    ensures Remove([], tag) == []
    ensures Remove([x] + list, tag) == (if x.tag == tag then [] else [x]) + Remove(list, tag)
  {
    assert ([x] + list)[1..] == list;
  }
}
