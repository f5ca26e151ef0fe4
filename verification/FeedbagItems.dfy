/** Feedbag items, how two of them are matched, and the allocation of their ids. */
module FeedbagItems {
  import opened Tlv

  const BUDDY: u16 := 0x0000
  const GROUP: u16 := 0x0001
  const PERMIT: u16 := 0x0002
  const DENY: u16 := 0x0003
  const PDINFO: u16 := 0x0004
  const ALINFO: u16 := 0x0018
  const MIN: u16 := 0x0400

  datatype Item = Item(name: string, groupId: u16, itemId: u16, classId: u16, tlvs: seq<TLV>) {
    function Key(): (u16, u16) { (groupId, itemId) }
    predicate IsGroup() { classId == GROUP && groupId != 0 }
    predicate IsRoot() { classId == GROUP && groupId == 0 }
  }

  // NewIdentScreenName: spaces dropped, letters lower-cased.
  function Lower(c: char): char {
    if 'A' <= c <= 'Z' then (c as int + 32) as char else c
  }

  function Ident(s: string): (r: string)
    ensures ' ' !in r
  {
    if s == "" then ""
    else if s[0] == ' ' then Ident(s[1..])
    else [Lower(s[0])] + Ident(s[1..])
  }

  lemma {:induction false} IdentIdempotent(s: string)
    ensures Ident(Ident(s)) == Ident(s)
  {
    if s != "" {
      IdentIdempotent(s[1..]);
      if s[0] != ' ' { assert Ident(s)[1..] == Ident(s[1..]); }
    }
  }

  predicate HasScreenName(classId: u16) {
    classId == BUDDY || classId == PERMIT || classId == ALINFO || classId == DENY
  }

  // The item as it is stored: the name of a screen-name class normalized.
  function Stored(item: Item): Item {
    if HasScreenName(item.classId) then item.(name := Ident(item.name)) else item
  }

  lemma StoredTwice(item: Item)
    ensures Stored(Stored(item)) == Stored(item)
  {
    IdentIdempotent(item.name);
  }

  // Whether an upsert or delete of b means the stored item a.
  predicate Matches(a: Item, b: Item) {
    && a.classId == b.classId
    && (if HasScreenName(a.classId) then Ident(a.name) == Ident(b.name) else a.name == b.name)
    && (a.classId == BUDDY || a.classId == MIN ==> a.groupId == b.groupId)
  }

  // FeedbagItem.IsEqual, which leaves the item id out.
  predicate SameContent(a: Item, b: Item) {
    a.name == b.name && a.groupId == b.groupId && a.classId == b.classId && a.tlvs == b.tlvs
  }

  // The position of the first item that satisfies p, or the length when there is none.
  function First(items: seq<Item>, p: Item -> bool): (i: nat)
    ensures i <= |items|
    ensures forall j :: 0 <= j < i ==> !p(items[j])
    ensures i < |items| ==> p(items[i])
  {
    if items == [] then 0 else if p(items[0]) then 0 else 1 + First(items[1..], p)
  }

  // ---- Id allocation ----

  predicate Used(items: seq<Item>, id: u16) {
    exists i :: 0 <= i < |items| && (items[i].groupId == id || items[i].itemId == id)
  }

  // The k-th candidate after a random start; the 16-bit counter wraps.
  function Candidate(start: u16, k: nat): u16 {
    (start + k) % 0x1_0000
  }

  // genID from its k-th candidate on. The loop stops before the id just below the start.
  function GenIdFrom(items: seq<Item>, start: u16, k: nat): u16
    requires k <= 0xFFFF
    decreases 0xFFFF - k
  {
    if k == 0xFFFF then 0
    else
      var id := Candidate(start, k);
      if id != 0 && !Used(items, id) then id else GenIdFrom(items, start, k + 1)
  }

  function GenId(items: seq<Item>, start: u16): u16 {
    GenIdFrom(items, start, 0)
  }

  lemma {:induction false} GenIdFromSound(items: seq<Item>, start: u16, k: nat)
    requires k <= 0xFFFF
    ensures var id := GenIdFrom(items, start, k);
            if id != 0 then !Used(items, id)
            else forall j :: k <= j < 0xFFFF ==> Candidate(start, j) == 0 || Used(items, Candidate(start, j))
    decreases 0xFFFF - k
  {
    if k < 0xFFFF {
      GenIdFromSound(items, start, k + 1);
    }
  }

  function Below(start: u16): u16 { (start + 0xFFFF) % 0x1_0000 }

  // Every id but the one just below the start is a candidate.
  lemma CandidateOf(start: u16, id: u16)
    requires id != Below(start)
    ensures exists k: nat :: k < 0xFFFF && Candidate(start, k) == id
  {
    var k := if id >= start then id - start else id + 0x1_0000 - start;
    assert Candidate(start, k) == id && k < 0xFFFF;
  }

  function IdsOf(items: seq<Item>): (s: set<u16>)
    ensures forall id :: id in s <==> Used(items, id)
    ensures |s| <= 2 * |items|
  {
    if items == [] then {}
    else
      var rest := IdsOf(items[1..]);
      var s := {items[0].groupId, items[0].itemId} + rest;
      assert forall id: u16 :: Used(items, id) <==> id == items[0].groupId || id == items[0].itemId || Used(items[1..], id) by {
        forall id: u16 | Used(items, id) ensures id == items[0].groupId || id == items[0].itemId || Used(items[1..], id) {
          var i :| 0 <= i < |items| && (items[i].groupId == id || items[i].itemId == id);
          if i > 0 { assert items[1..][i - 1] == items[i]; }
        }
        forall id: u16 | Used(items[1..], id) ensures Used(items, id) {
          var i :| 0 <= i < |items[1..]| && (items[1..][i].groupId == id || items[1..][i].itemId == id);
          assert items[i + 1] == items[1..][i];
        }
      }
      s
  }

  function UpTo(n: nat): (s: set<u16>)
    requires n < 0x1_0000
    ensures |s| == n && forall x :: x in s <==> 1 <= x <= n
  {
    if n == 0 then {} else var m: u16 := n; UpTo(n - 1) + {m}
  }

  lemma Contained(a: set<u16>, b: set<u16>)
    requires a <= b
    ensures |a| <= |b|
  {
    assert b == a + (b - a);
  }

  lemma ManyFree(n: nat, taken: u16) returns (free: set<u16>)
    requires 0 < n < 0x1_0000
    ensures |free| >= n - 1 && forall id :: id in free <==> 1 <= id <= n && id != taken
  {
    var all := UpTo(n);
    free := all - {taken};
    assert if taken in all then all == free + {taken} else all == free;
  }

  // With at most 32766 items in the list, genID terminates with a non-zero id that no item uses as its group id
  // or item id, whatever the random start.
  lemma GenIdFresh(items: seq<Item>, start: u16)
    requires |items| <= 32766
    ensures GenId(items, start) != 0 && !Used(items, GenId(items, start))
  {
    GenIdFromSound(items, start, 0);
    if GenId(items, start) == 0 {
      var free := ManyFree(0xFFFF, Below(start));
      forall id | id in free ensures id in IdsOf(items) {
        CandidateOf(start, id);
        var k: nat :| k < 0xFFFF && Candidate(start, k) == id;
      }
      Contained(free, IdsOf(items));
      assert false;
    }
  }

  // genID gives up exactly when every id it may try is taken.
  lemma GenIdExhausted(items: seq<Item>, start: u16)
    ensures GenId(items, start) == 0 <==> forall id: u16 :: id != 0 && id != Below(start) ==> Used(items, id)
  {
    GenIdFromSound(items, start, 0);
    if GenId(items, start) == 0 {
      forall id: u16 | id != 0 && id != Below(start) ensures Used(items, id) {
        CandidateOf(start, id);
        var k: nat :| k < 0xFFFF && Candidate(start, k) == id;
      }
    } else {
      GenIdInRange(items, start, 0);
    }
  }

  lemma {:induction false} GenIdInRange(items: seq<Item>, start: u16, k: nat)
    requires k <= 0xFFFF
    ensures GenIdFrom(items, start, k) != 0 ==> GenIdFrom(items, start, k) != Below(start)
    decreases 0xFFFF - k
  {
    if k < 0xFFFF {
      assert Candidate(start, k) != Below(start);
      GenIdInRange(items, start, k + 1);
    }
  }

  // The bound is tight: one more item can use up every candidate.
  lemma GenIdCanFail()
    ensures exists items: seq<Item> :: |items| == 32767 && GenId(items, 0) == 0
  {
    var items := seq(32767, i requires 0 <= i < 32767 => Item("", 2 * i + 1, 2 * i + 2, PERMIT, []));
    forall id: u16 | id != 0 && id != Below(0) ensures Used(items, id) {
      var i := (id - 1) / 2;
      assert items[i].groupId == id || items[i].itemId == id;
    }
    GenIdExhausted(items, 0);
    assert |items| == 32767 && GenId(items, 0) == 0;
  }

  // ---- Normalized names ----

  // A name is normalized character by character: spaces are dropped, and capitals become small.
  lemma NormalizedName(c: char, s: string)
    ensures Ident("") == ""
    ensures Ident([c] + s)
         == if c == ' ' then Ident(s)
            else if 'A' <= c <= 'Z' then ["abcdefghijklmnopqrstuvwxyz"[c as int - 'A' as int]] + Ident(s)
            else [c] + Ident(s)
  {
    assert ([c] + s)[1..] == s;
  }
}
