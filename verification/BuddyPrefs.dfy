/**
 Buddy preferences: booleans packed into two bit masks, each with a twin that says which bits carry a value. Four
 TLVs hold the masks. Setting and reading them refines a plain map.
 */
module BuddyPrefs {
  import opened Common
  import opened Integers
  import opened Tlv
  import FeedbagList

  const VALUE_LOW: u16 := 0x00C9
  const VALID_LOW: u16 := 0x00D6
  const VALUE_HIGH: u16 := 0x00D7
  const VALID_HIGH: u16 := 0x00D8

  // ---- Bits of a byte ----

  predicate Bit(b: byte, k: nat) {
    if k == 0 then b % 2 == 1 else Bit(b / 2, k - 1)
  }

  // b with bit k set or cleared.
  function WithBit(b: byte, k: nat, v: bool): (r: byte)
    requires k < 8
  {
    WithBitBelow(b, k, v, 8)
  }

  function WithBitBelow(b: byte, k: nat, v: bool, n: nat): (r: byte)
    requires k < n <= 8 && b < Power(n)
    ensures r < Power(n)
  {
    if k == 0 then b - b % 2 + (if v then 1 else 0)
    else 2 * WithBitBelow(b / 2, k - 1, v, n - 1) + b % 2
  }

  function Power(n: nat): (p: nat)
    requires n <= 8
    ensures n > 0 ==> p % 2 == 0
    ensures p <= 256
    ensures n == 8 ==> p == 256
  {
    [1, 2, 4, 8, 16, 32, 64, 128, 256][n]
  }

  lemma {:induction false} BitOfWithBit(b: byte, k: nat, v: bool, n: nat, j: nat)
    requires k < n <= 8 && b < Power(n)
    ensures Bit(WithBitBelow(b, k, v, n), j) == if j == k then v else Bit(b, j)
  {
    if k > 0 {
      var r := WithBitBelow(b / 2, k - 1, v, n - 1);
      assert (2 * r + b % 2) / 2 == r && (2 * r + b % 2) % 2 == b % 2;
      if j > 0 { BitOfWithBit(b / 2, k - 1, v, n - 1, j - 1); }
    }
  }

  lemma {:induction false} NoBit(j: nat)
    ensures !Bit(0, j)
  {
    if j > 0 { NoBit(j - 1); }
  }

  // ---- Places of preferences ----

  predicate Low(p: u16) { p < 32 }

  function ValidTag(p: u16): u16 { if Low(p) then VALID_LOW else VALID_HIGH }
  function ValueTag(p: u16): u16 { if Low(p) then VALUE_LOW else VALUE_HIGH }

  function Offset(p: u16): nat
    requires !Low(p)
  {
    if p == 32 then 0 else p - 33
  }

  datatype Place = Place(index: int, bit: nat)

  // buddyPrefBit: the low mask counts bits from its right end, the high mask from its left end.
  function PlaceOf(p: u16, length: nat): (r: Place)
    ensures r.bit < 8
  {
    if Low(p) then Place(length - 1 - p / 8, p % 8)
    else Place(Offset(p) / 8, 7 - Offset(p) % 8)
  }

  // The preference whose bit p uses: 32 and 33 fall on the same one.
  function Cell(p: u16): u16 { if p == 32 then 33 else p }

  predicate Twins(p: u16, q: u16) {
    p == q || (p == 32 && q == 33) || (p == 33 && q == 32)
  }

  // In masks of any length, two preferences share mask, byte and bit only when they are equal or are 32 and 33.
  lemma SharedPlace(p: u16, q: u16, length: nat)
    ensures ValidTag(p) == ValidTag(q) && PlaceOf(p, length) == PlaceOf(q, length) <==> Cell(p) == Cell(q)
    ensures Cell(p) == Cell(q) <==> Twins(p, q)
  {
  }

  predicate BitAt(mask: seq<byte>, p: u16) {
    var at := PlaceOf(p, |mask|);
    0 <= at.index < |mask| && Bit(mask[at.index], at.bit)
  }

  // ---- Padding ----

  function Zeros(n: nat): (z: seq<byte>)
    ensures |z| == n
  {
    seq(n, i => 0)
  }

  // leftPad for the low masks, rightPad for the high ones.
  function Pad(low: bool, mask: seq<byte>, n: nat): (r: seq<byte>)
    ensures |r| == if |mask| >= n then |mask| else n
  {
    if |mask| >= n then mask
    else if low then Zeros(n - |mask|) + mask
    else mask + Zeros(n - |mask|)
  }

  lemma PadKeepsBits(mask: seq<byte>, n: nat, p: u16)
    ensures BitAt(Pad(Low(p), mask, n), p) == BitAt(mask, p)
  {
    NoBit(PlaceOf(p, 0).bit);
  }

  // The mask with the bit of p rewritten.
  function WithPlace(mask: seq<byte>, p: u16, v: bool): (r: seq<byte>)
    requires 0 <= PlaceOf(p, |mask|).index < |mask|
    ensures |r| == |mask|
  {
    var at := PlaceOf(p, |mask|);
    mask[at.index := WithBit(mask[at.index], at.bit, v)]
  }

  lemma WithPlaceBits(mask: seq<byte>, p: u16, v: bool, q: u16)
    requires 0 <= PlaceOf(p, |mask|).index < |mask| && Low(p) == Low(q)
    ensures BitAt(WithPlace(mask, p, v), q) == if Cell(q) == Cell(p) then v else BitAt(mask, q)
  {
    SharedPlace(p, q, |mask|);
    var at := PlaceOf(p, |mask|);
    BitOfWithBit(mask[at.index], at.bit, v, 8, PlaceOf(q, |mask|).bit);
  }

  // ---- Reading and setting ----

  datatype Reading = Reading(valid: bool, value: bool)

  const ABSENT := Reading(false, false)

  // readBuddyPref. The byte index comes from the length of the valid mask and is used in both masks.
  function Read(list: seq<TLV>, p: u16): Reading {
    match (Bytes(list, ValidTag(p)), Bytes(list, ValueTag(p)))
    case (Some(valid), Some(value)) =>
      var at := PlaceOf(p, |valid|);
      if at.index < 0 || at.index >= |valid| || at.index >= |value| then ABSENT
      else Reading(Bit(valid[at.index], at.bit), Bit(value[at.index], at.bit))
    case _ => ABSENT
  }

  // The preferences that count as set while they are absent; all others default to false.
  const ON_BY_DEFAULT: set<u16> :=
    {0, 1, 2, 3, 4, 5, 6, 8, 9, 10, 13, 14, 15, 16, 21, 22, 24, 25, 26, 27, 28, 29, 30, 32, 33, 34, 35, 36, 37, 40,
     48, 50, 52, 53, 54, 55, 58, 70, 72, 75, 76}

  function BuddyPref(list: seq<TLV>, p: u16): bool {
    var r := Read(list, p);
    if r.valid then r.value else p in ON_BY_DEFAULT
  }

  function Mask(list: seq<TLV>, tag: u16): seq<byte> {
    match Bytes(list, tag) case Some(m) => m case None => []
  }

  function NewLength(p: u16, m: nat, n: nat): (r: nat)
    ensures r >= m && r >= n
    ensures 0 <= PlaceOf(p, r).index < r
  {
    Max(if Low(p) then 4 else Offset(p) / 8 + 1, Max(m, n))
  }

  function SetBuddyPref(list: seq<TLV>, p: u16, v: bool): seq<TLV> {
    var valid, value := Mask(list, ValidTag(p)), Mask(list, ValueTag(p));
    var n := NewLength(p, |valid|, |value|);
    var valid' := WithPlace(Pad(Low(p), valid, n), p, true);
    var value' := WithPlace(Pad(Low(p), value, n), p, v);
    Set(Set(list, TLV(ValidTag(p), valid')), TLV(ValueTag(p), value'))
  }

  // SetBuddyPref as it runs: on copies of the masks that are grown and changed in place.
  method SetInPlace(list: seq<TLV>, p: u16, v: bool) returns (r: seq<TLV>)
    ensures r == SetBuddyPref(list, p, v)
  {
    var rawValid, rawValue := Mask(list, ValidTag(p)), Mask(list, ValueTag(p));
    var n := NewLength(p, |rawValid|, |rawValue|);
    var valid := Grown(Low(p), rawValid, n);
    var value := Grown(Low(p), rawValue, n);
    var at := PlaceOf(p, n);
    valid[at.index] := WithBit(valid[at.index], at.bit, true);
    value[at.index] := WithBit(value[at.index], at.bit, v);
    r := FeedbagList.SetTlv(list, TLV(ValidTag(p), valid[..]));
    r := FeedbagList.SetTlv(r, TLV(ValueTag(p), value[..]));
  }

  method Grown(low: bool, mask: seq<byte>, n: nat) returns (a: array<byte>)
    requires |mask| <= n
    ensures fresh(a) && a[..] == Pad(low, mask, n)
  {
    a := new byte[n](_ => 0);
    var at := if low then n - |mask| else 0;
    for i := 0 to |mask|
      invariant forall j :: 0 <= j < n ==> a[j] == if at <= j < at + i then mask[j - at] else 0
    {
      a[at + i] := mask[i];
    }
  }

  // ---- What one setting does ----

  // The valid and the value mask of each half are absent together or equally long.
  predicate Aligned(list: seq<TLV>) {
    && SameShape(Bytes(list, VALID_LOW), Bytes(list, VALUE_LOW))
    && SameShape(Bytes(list, VALID_HIGH), Bytes(list, VALUE_HIGH))
  }

  predicate SameShape(a: Option<seq<byte>>, b: Option<seq<byte>>) {
    a.Some? == b.Some? && (a.Some? ==> |a.value| == |b.value|)
  }

  lemma ReadAligned(list: seq<TLV>, p: u16)
    requires Aligned(list)
    ensures Read(list, p) == Reading(BitAt(Mask(list, ValidTag(p)), p), BitAt(Mask(list, ValueTag(p)), p))
  {
  }

  lemma MasksAfterSet(list: seq<TLV>, p: u16, v: bool, tag: u16)
    ensures tag != ValidTag(p) && tag != ValueTag(p) ==> Bytes(SetBuddyPref(list, p, v), tag) == Bytes(list, tag)
    ensures var valid, value := Mask(list, ValidTag(p)), Mask(list, ValueTag(p));
            var n := NewLength(p, |valid|, |value|);
            && Bytes(SetBuddyPref(list, p, v), ValidTag(p)) == Some(WithPlace(Pad(Low(p), valid, n), p, true))
            && Bytes(SetBuddyPref(list, p, v), ValueTag(p)) == Some(WithPlace(Pad(Low(p), value, n), p, v))
  {
    var valid, value := Mask(list, ValidTag(p)), Mask(list, ValueTag(p));
    var n := NewLength(p, |valid|, |value|);
    var a := TLV(ValidTag(p), WithPlace(Pad(Low(p), valid, n), p, true));
    var b := TLV(ValueTag(p), WithPlace(Pad(Low(p), value, n), p, v));
    BytesSet(list, a, tag);
    BytesSet(Set(list, a), b, tag);
    BytesSet(list, a, ValidTag(p));
    BytesSet(Set(list, a), b, ValidTag(p));
    BytesSet(Set(list, a), b, ValueTag(p));
  }

  // In any list: the preference set reads back, the masks stay aligned, and no TLV of another kind changes.
  lemma SetReadsBack(list: seq<TLV>, p: u16, v: bool)
    ensures Read(SetBuddyPref(list, p, v), p) == Reading(true, v)
    ensures BuddyPref(SetBuddyPref(list, p, v), p) == v
    ensures Aligned(list) ==> Aligned(SetBuddyPref(list, p, v))
    ensures forall tag :: tag !in {VALUE_LOW, VALID_LOW, VALUE_HIGH, VALID_HIGH} ==>
              Bytes(SetBuddyPref(list, p, v), tag) == Bytes(list, tag)
  {
    var valid, value := Mask(list, ValidTag(p)), Mask(list, ValueTag(p));
    var n := NewLength(p, |valid|, |value|);
    forall tag ensures tag !in {ValidTag(p), ValueTag(p)} ==> Bytes(SetBuddyPref(list, p, v), tag) == Bytes(list, tag) {
      MasksAfterSet(list, p, v, tag);
    }
    MasksAfterSet(list, p, v, ORDER);
    WithPlaceBits(Pad(Low(p), valid, n), p, true, p);
    WithPlaceBits(Pad(Low(p), value, n), p, v, p);
  }

  // What a reading says: the value counts only when it is valid.
  function Meaning(r: Reading): Option<bool> {
    if r.valid then Some(r.value) else None
  }

  // The byte after the last one that some preference of the high masks uses.
  const HIGH_BYTES := 8188

  // The lengths of a valid and a value mask that let both be grown without a change of meaning.
  predicate Growable(low: bool, valid: nat, value: nat) {
    if low then valid == 0 || valid == value else valid <= value || value >= HIGH_BYTES
  }

  predicate Fits(list: seq<TLV>, p: u16) {
    Growable(Low(p), |Mask(list, ValidTag(p))|, |Mask(list, ValueTag(p))|)
  }

  // Reading both masks with the index that the valid one gives.
  function ReadMasks(valid: seq<byte>, value: seq<byte>, p: u16): Reading {
    var at := PlaceOf(p, |valid|);
    if at.index < 0 || at.index >= |valid| || at.index >= |value| then ABSENT
    else Reading(Bit(valid[at.index], at.bit), Bit(value[at.index], at.bit))
  }

  lemma ReadIsReadMasks(list: seq<TLV>, p: u16)
    ensures Read(list, p) == ReadMasks(Mask(list, ValidTag(p)), Mask(list, ValueTag(p)), p)
  {
  }

  // The masks after a setting, for a preference whose bit is another one: grown and otherwise the same.
  lemma ReadAfterSet(list: seq<TLV>, p: u16, v: bool, q: u16)
    requires Low(p) == Low(q) && Cell(q) != Cell(p)
    ensures var valid, value := Mask(list, ValidTag(p)), Mask(list, ValueTag(p));
      Read(SetBuddyPref(list, p, v), q) == Reading(BitAt(valid, q), BitAt(value, q))
  {
    var valid, value := Mask(list, ValidTag(p)), Mask(list, ValueTag(p));
    var n := NewLength(p, |valid|, |value|);
    MasksAfterSet(list, p, v, ORDER);
    PadKeepsBits(valid, n, q);
    PadKeepsBits(value, n, q);
    WithPlaceBits(Pad(Low(p), valid, n), p, true, q);
    WithPlaceBits(Pad(Low(p), value, n), p, v, q);
  }

  lemma OtherHalf(list: seq<TLV>, p: u16, v: bool, q: u16)
    requires Low(p) != Low(q)
    ensures Read(SetBuddyPref(list, p, v), q) == Read(list, q)
  {
    MasksAfterSet(list, p, v, ValidTag(q));
    MasksAfterSet(list, p, v, ValueTag(q));
  }

  lemma GrowableMeans(valid: seq<byte>, value: seq<byte>, q: u16)
    requires Growable(Low(q), |valid|, |value|)
    ensures Meaning(Reading(BitAt(valid, q), BitAt(value, q))) == Meaning(ReadMasks(valid, value, q))
  {
  }

  // Where the masks of p's half can be grown, setting p changes the meaning of no other preference.
  lemma SetKeepsOthers(list: seq<TLV>, p: u16, v: bool, q: u16)
    requires Fits(list, p) && Cell(q) != Cell(p)
    ensures Meaning(Read(SetBuddyPref(list, p, v), q)) == Meaning(Read(list, q))
    ensures BuddyPref(SetBuddyPref(list, p, v), q) == BuddyPref(list, q)
    ensures Aligned(list) ==> Read(SetBuddyPref(list, p, v), q) == Read(list, q)
  {
    if Low(p) == Low(q) {
      ReadAfterSet(list, p, v, q);
      ReadIsReadMasks(list, q);
      GrowableMeans(Mask(list, ValidTag(q)), Mask(list, ValueTag(q)), q);
    } else {
      OtherHalf(list, p, v, q);
    }
  }

  // Setting p to v keeps the meaning of every other preference, in all lists whose masks of p's half have the lengths.
  ghost predicate Local(p: u16, v: bool, valid: nat, value: nat) {
    forall list: seq<TLV>, q: u16 |
      |Mask(list, ValidTag(p))| == valid && |Mask(list, ValueTag(p))| == value && !Twins(p, q) ::
      Meaning(Read(SetBuddyPref(list, p, v), q)) == Meaning(Read(list, q))
  }

  // Growing the masks keeps all other preferences if and only if, for the low masks, there is no valid mask or it is as
  // long as the value mask; and for the high masks, the valid mask is no longer than the value mask (or a preference
  // number cannot reach the end of the value mask).
  lemma SetKeepsOthersExactly(p: u16, v: bool, valid: nat, value: nat)
    ensures Local(p, v, valid, value) <==> Growable(Low(p), valid, value)
  {
    if Growable(Low(p), valid, value) {
      forall list: seq<TLV>, q: u16 |
        |Mask(list, ValidTag(p))| == valid && |Mask(list, ValueTag(p))| == value && !Twins(p, q)
        ensures Meaning(Read(SetBuddyPref(list, p, v), q)) == Meaning(Read(list, q))
      {
        SharedPlace(p, q, 0);
        SetKeepsOthers(list, p, v, q);
      }
    } else {
      var list, q := GrowthMoves(p, v, valid, value);
      assert |Mask(list, ValidTag(p))| == valid && |Mask(list, ValueTag(p))| == value && !Twins(p, q);
    }
  }

  function Ones(n: nat): (m: seq<byte>)
    ensures |m| == n
  {
    seq(n, _ => 0xFF)
  }

  lemma {:induction false} AllBits(n: nat, j: nat)
    requires j < n <= 8
    ensures Bit(Power(n) - 1, j)
  {
    if j > 0 {
      assert (Power(n) - 1) / 2 == Power(n - 1) - 1;
      AllBits(n - 1, j - 1);
    }
  }

  // A list of two masks.
  function Masked(p: u16, valid: seq<byte>, value: seq<byte>): seq<TLV> {
    [TLV(ValidTag(p), valid), TLV(ValueTag(p), value)]
  }

  lemma MaskedHas(p: u16, valid: seq<byte>, value: seq<byte>)
    ensures Mask(Masked(p, valid, value), ValidTag(p)) == valid && Mask(Masked(p, valid, value), ValueTag(p)) == value
  {
    var list := Masked(p, valid, value);
    assert list[1..] == [TLV(ValueTag(p), value)];
    assert Bytes(list[1..], ValueTag(p)) == Some(value);
    assert Bytes(list, ValidTag(p)) == Some(valid) && Bytes(list, ValueTag(p)) == Bytes(list[1..], ValueTag(p));
  }

  // Otherwise some preference moves: the valid mask says that all are valid, and the value mask has its one byte of
  // ones where growing looks, unless it is too short and growing uncovers a preference.
  lemma GrowthMoves(p: u16, v: bool, valid: nat, value: nat) returns (list: seq<TLV>, q: u16)
    requires !Growable(Low(p), valid, value)
    ensures |Mask(list, ValidTag(p))| == valid && |Mask(list, ValueTag(p))| == value && !Twins(p, q)
    ensures Meaning(Read(SetBuddyPref(list, p, v), q)) != Meaning(Read(list, q))
  {
    var m := Ones(valid);
    var w := if value == 0 then [] else Zeros(value - 1) + Ones(1);
    list := Masked(p, m, w);
    q := if Low(p) then (if p == 0 then 1 else 0)
         else if Offset(p) == 8 * value then 34 + 8 * value else 33 + 8 * value;
    MaskedHas(p, m, w);
    SharedPlace(p, q, 0);
    ReadAfterSet(list, p, v, q);
    ReadIsReadMasks(list, q);
    MasksMove(m, w, q);
  }

  lemma MasksMove(m: seq<byte>, w: seq<byte>, q: u16)
    requires m == Ones(|m|) && w == (if |w| == 0 then [] else Zeros(|w| - 1) + Ones(1))
    requires if Low(q) then q < 8 && |m| > 0 && |m| != |w| else Offset(q) / 8 == |w| < |m|
    ensures Meaning(Reading(BitAt(m, q), BitAt(w, q))) != Meaning(ReadMasks(m, w, q))
  {
    var at := PlaceOf(q, |m|);
    AllBits(8, at.bit);
    NoBit(at.bit);
    assert m[at.index] == 0xFF && BitAt(m, q);
    if |m| < |w| {
      assert w[at.index] == 0 && w[PlaceOf(q, |w|).index] == 0xFF;
    } else {
      assert ReadMasks(m, w, q) == ABSENT;
    }
  }

  // The pairs that disturb each other are exactly the equal ones and 32 with 33: in all lists whose masks can be grown,
  // and in all aligned lists, where even the readings that count for nothing stay.
  lemma SetIsLocalExactly(p: u16, q: u16)
    ensures (forall list, v :: Fits(list, p) ==> Meaning(Read(SetBuddyPref(list, p, v), q)) == Meaning(Read(list, q)))
       <==> !Twins(p, q)
    ensures (forall list, v :: Aligned(list) ==> Read(SetBuddyPref(list, p, v), q) == Read(list, q))
       <==> !Twins(p, q)
  {
    SharedPlace(p, q, 0);
    if Cell(p) != Cell(q) {
      forall list, v | Fits(list, p) ensures Meaning(Read(SetBuddyPref(list, p, v), q)) == Meaning(Read(list, q)) {
        SetKeepsOthers(list, p, v, q);
      }
      forall list, v | Aligned(list) ensures Read(SetBuddyPref(list, p, v), q) == Read(list, q) {
        SetKeepsOthers(list, p, v, q);
      }
    } else {
      SetReadsBack([], p, true);
      SameCellReadsAlike(SetBuddyPref([], p, true), p, q);
      assert Aligned([]) && Fits([], p) && Read([], q) == ABSENT;
    }
  }

  lemma SameCellReadsAlike(list: seq<TLV>, p: u16, q: u16)
    requires Cell(p) == Cell(q)
    ensures Read(list, p) == Read(list, q)
  {
    match Bytes(list, ValidTag(p))
    case Some(valid) => SharedPlace(p, q, |valid|);
    case None =>
  }

  // Four bytes of valid bits over three bytes of values: setting preference 1 turns preference 8 from off to on.
  lemma MisalignedMasksMove()
    ensures var list := [TLV(VALID_LOW, [0, 0, 1, 0]), TLV(VALUE_LOW, [0, 1, 0])];
      && Read(list, 8) == Reading(true, false) && !BuddyPref(list, 8)
      && Read(SetBuddyPref(list, 1, true), 8) == Reading(true, true) && BuddyPref(SetBuddyPref(list, 1, true), 8)
  {
    var list := [TLV(VALID_LOW, [0, 0, 1, 0]), TLV(VALUE_LOW, [0, 1, 0])];
    assert Bytes(list, VALID_LOW) == Some([0, 0, 1, 0]);
    assert list[1..] == [TLV(VALUE_LOW, [0, 1, 0])];
    assert Bytes(list, VALUE_LOW) == Some([0, 1, 0]);
    assert Bit(1, 0) && !Bit(0, 0);
    assert Read(list, 8) == Reading(true, false);
    MasksAfterSet(list, 1, true, ORDER);
    assert Pad(true, [0, 1, 0], 4) == [0, 0, 1, 0];
    assert PlaceOf(8, 4) == Place(2, 0) && PlaceOf(1, 4) == Place(3, 1);
    assert Read(SetBuddyPref(list, 1, true), 8) == Reading(true, true);
  }

  // ---- Runs ----

  datatype Setting = Setting(pref: u16, value: bool)

  function SetAll(list: seq<TLV>, run: seq<Setting>): seq<TLV> {
    if run == [] then list
    else
      var last := run[|run| - 1];
      SetBuddyPref(SetAll(list, run[..|run| - 1]), last.pref, last.value)
  }

  // The plain map that the masks stand for.
  function MapOf(run: seq<Setting>): map<u16, bool> {
    if run == [] then map[]
    else
      var last := run[|run| - 1];
      MapOf(run[..|run| - 1])[Cell(last.pref) := last.value]
  }

  lemma {:induction false} RunRefinesMap(run: seq<Setting>, q: u16)
    ensures Aligned(SetAll([], run))
    ensures Read(SetAll([], run), q)
         == if Cell(q) in MapOf(run) then Reading(true, MapOf(run)[Cell(q)]) else ABSENT
  {
    if run != [] {
      var n := |run| - 1;
      var list := SetAll([], run[..n]);
      var p, v := run[n].pref, run[n].value;
      RunRefinesMap(run[..n], q);
      SetReadsBack(list, p, v);
      if Cell(p) == Cell(q) {
        SameCellReadsAlike(SetBuddyPref(list, p, v), p, q);
      } else {
        SetKeepsOthers(list, p, v, q);
      }
    }
  }

  // The settings of one half leave its masks equally long, and those of the other half alone.
  lemma SetKeepsFits(list: seq<TLV>, p: u16, v: bool, q: u16)
    requires Fits(list, q)
    ensures Fits(SetBuddyPref(list, p, v), q)
  {
    MasksAfterSet(list, p, v, ValidTag(q));
    MasksAfterSet(list, p, v, ValueTag(q));
  }

  // A run of settings over a stored list whose masks can be grown: what was set says so, and all else is as stored.
  lemma {:induction false} RunOverStored(list: seq<TLV>, run: seq<Setting>, q: u16)
    requires forall p: u16 :: Fits(list, p)
    ensures forall p: u16 :: Fits(SetAll(list, run), p)
    ensures Meaning(Read(SetAll(list, run), q))
         == if Cell(q) in MapOf(run) then Some(MapOf(run)[Cell(q)]) else Meaning(Read(list, q))
  {
    if run != [] {
      var n := |run| - 1;
      var before := SetAll(list, run[..n]);
      var p, v := run[n].pref, run[n].value;
      RunOverStored(list, run[..n], q);
      forall r: u16 ensures Fits(SetBuddyPref(before, p, v), r) { SetKeepsFits(before, p, v, r); }
      if Cell(p) == Cell(q) {
        SetReadsBack(before, p, v);
        SameCellReadsAlike(SetBuddyPref(before, p, v), p, q);
      } else {
        SetKeepsOthers(before, p, v, q);
      }
    }
  }

  // Setting i of the run is the last one of preference q or its twin.
  predicate LastOf(run: seq<Setting>, q: u16, i: int) {
    && 0 <= i < |run| && Twins(run[i].pref, q)
    && forall j :: i < j < |run| ==> !Twins(run[j].pref, q)
  }

  // After any run of settings from an empty list, a preference has the value last given to it or to its twin, and
  // its default when there was none.
  lemma PrefIsLastSetOrDefault(run: seq<Setting>, q: u16)
    ensures (exists i :: LastOf(run, q, i)) || forall i :: 0 <= i < |run| ==> !Twins(run[i].pref, q)
    ensures forall i :: LastOf(run, q, i) ==> BuddyPref(SetAll([], run), q) == run[i].value
    ensures !(exists i :: LastOf(run, q, i)) ==> BuddyPref(SetAll([], run), q) == (q in ON_BY_DEFAULT)
  {
    RunRefinesMap(run, q);
    LastInMap(run, q);
  }

  lemma {:induction false} LastInMap(run: seq<Setting>, q: u16)
    ensures Cell(q) in MapOf(run) <==> exists i :: LastOf(run, q, i)
    ensures forall i :: LastOf(run, q, i) ==> Cell(q) in MapOf(run) && MapOf(run)[Cell(q)] == run[i].value
    ensures Cell(q) !in MapOf(run) ==> forall i :: 0 <= i < |run| ==> !Twins(run[i].pref, q)
  {
    if run != [] {
      var n := |run| - 1;
      var rest := run[..n];
      LastInMap(rest, q);
      if Twins(run[n].pref, q) {
        assert LastOf(run, q, n);
      } else {
        forall i ensures LastOf(run, q, i) <==> LastOf(rest, q, i) {
          if LastOf(rest, q, i) {
            assert forall j :: i < j < n ==> rest[j] == run[j];
          }
          if LastOf(run, q, i) {
            assert i < n && forall j :: i < j < n ==> rest[j] == run[j];
          }
        }
        assert forall i :: 0 <= i < n ==> rest[i] == run[i];
      }
    }
  }

  // ---- Where the bits are ----

  lemma {:induction false} BitByArithmetic(b: byte, k: nat)
    requires k < 8
    ensures Bit(b, k) <==> b / Power(k) % 2 == 1
  {
    if k > 0 {
      BitByArithmetic(b / 2, k - 1);
      assert Power(k) == 2 * Power(k - 1);
      DivideTwice(b, 2, Power(k - 1));
    }
  }

  // The low masks have preference 0 in the last bit of their last byte and go on to the left: preference p is bit p % 8
  // of the byte p / 8 before the last one.
  lemma LowBits(list: seq<TLV>, p: u16, valid: seq<byte>, value: seq<byte>)
    requires p < 32 && Bytes(list, 0xD6) == Some(valid) && Bytes(list, 0xC9) == Some(value)
    requires p as nat / 8 < |valid| && |valid| - 1 - p as nat / 8 < |value|
    ensures var i, unit := |valid| - 1 - p as nat / 8, [1, 2, 4, 8, 16, 32, 64, 128][p % 8];
      Read(list, p) == Reading(valid[i] / unit % 2 == 1, value[i] / unit % 2 == 1)
  {
    var i := |valid| - 1 - p as nat / 8;
    BitByArithmetic(valid[i], p as nat % 8);
    BitByArithmetic(value[i], p as nat % 8);
  }

  // The high masks have preference 33 in the first bit of their first byte and go on to the right.
  lemma HighBits(list: seq<TLV>, p: u16, valid: seq<byte>, value: seq<byte>)
    requires p >= 33 && Bytes(list, 0xD8) == Some(valid) && Bytes(list, 0xD7) == Some(value)
    requires (p as nat - 33) / 8 < |valid| && (p as nat - 33) / 8 < |value|
    ensures var i, unit := (p as nat - 33) / 8, [128, 64, 32, 16, 8, 4, 2, 1][(p as nat - 33) % 8];
      Read(list, p) == Reading(valid[i] / unit % 2 == 1, value[i] / unit % 2 == 1)
  {
    var o := p as nat - 33;
    BitByArithmetic(valid[o / 8], 7 - o % 8);
    BitByArithmetic(value[o / 8], 7 - o % 8);
  }

  // Preference 32 shares the bit of 33, and without one of its masks a preference is absent.
  lemma NoMasks(list: seq<TLV>, p: u16)
    ensures Read(list, 32) == Read(list, 33)
    ensures p < 32 && (Bytes(list, 0xD6).None? || Bytes(list, 0xC9).None?) ==> Read(list, p) == ABSENT
    ensures p >= 32 && (Bytes(list, 0xD8).None? || Bytes(list, 0xD7).None?) ==> Read(list, p) == ABSENT
  {
    SameCellReadsAlike(list, 32, 33);
  }

  lemma OnByDefault(p: u16)
    ensures p in ON_BY_DEFAULT <==>
              p <= 76 && p !in {7, 11, 12, 17, 18, 19, 20, 23, 31, 38, 39, 41, 42, 43, 44, 45, 46, 47, 49, 51, 56, 57,
                                59, 60, 61, 62, 63, 64, 65, 66, 67, 68, 69, 71, 73, 74}
  {
  }

  // An absent preference is on unless it is one of these or has no number of its own.
  lemma AbsentPrefs(list: seq<TLV>, p: u16)
    ensures !Read(list, p).valid ==>
              (BuddyPref(list, p) <==>
                p <= 76 && p !in {7, 11, 12, 17, 18, 19, 20, 23, 31, 38, 39, 41, 42, 43, 44, 45, 46, 47, 49, 51, 56, 57,
                                  59, 60, 61, 62, 63, 64, 65, 66, 67, 68, 69, 71, 73, 74})
    ensures Read(list, p).valid ==> BuddyPref(list, p) == Read(list, p).value
  {
    OnByDefault(p);
  }

  // Both masks grow to what the preference needs, four bytes at least for the low ones, and no further.
  lemma MaskLengths(list: seq<TLV>, p: u16, v: bool)
    ensures var a, b := |Mask(list, ValidTag(p))|, |Mask(list, ValueTag(p))|;
      var r := SetBuddyPref(list, p, v);
      && |Mask(r, ValidTag(p))| == |Mask(r, ValueTag(p))|
      && |Mask(r, ValidTag(p))| == Max(Max(a, b), if p < 32 then 4 else if p == 32 then 1 else (p as nat - 33) / 8 + 1)
  {
    MasksAfterSet(list, p, v, ORDER);
  }
}
