/**
 Where a buddy stands in its group, what attributes it has, and which error an edit gives: for each edit, from the list
 before it.
 */
module FeedbagPlaces {
  import opened Common
  import opened Tlv
  import opened FeedbagItems
  import opened FeedbagEdits
  import opened FeedbagOrder
  import opened FeedbagRuns
  import opened FeedbagDeletion
  import opened FeedbagRoster

  // ---- Finding what an ordered list has ----

  lemma TheGroup(s: List, name: string, g: Ptr)
    requires Ordered(s) && g in Live(s) && s.mem[g].IsGroup() && s.mem[g].name == name
    ensures GroupByName(s, name) == Some(g)
  {
    var found := GroupByName(s, name);
    if found.Some? && found.value != g { assert Clash(s.mem[found.value], s.mem[g]); }
  }

  lemma TheBuddy(s: List, g: Ptr, name: string, b: Ptr)
    requires Ordered(s) && g < |s.mem| && b in Live(s) && IsBuddyOf(s.mem[b], s.mem[g].groupId, name)
    ensures BuddyItem(s, g, name) == Some(b)
  {
    var found := BuddyItem(s, g, name);
    if found.Some? && found.value != b { SameBuddy(s, found.value, b, s.mem[g].groupId, name); }
  }

  lemma SameBuddy(s: List, a: Ptr, b: Ptr, gid: u16, name: string)
    requires Ordered(s) && a in Live(s) && b in Live(s)
    requires IsBuddyOf(s.mem[a], gid, name) && IsBuddyOf(s.mem[b], gid, name)
    ensures a == b
  {
    assert ItemOk(s.mem[a]) && ItemOk(s.mem[b]);
    assert a != b ==> Clash(s.mem[a], s.mem[b]);
  }

  // What an upsert of a buddy means in an ordered list: the buddy of the name in the group.
  lemma UpsertMeansBuddy(s: List, g: Ptr, name: string, attrs: seq<TLV>)
    requires Ordered(s) && g < |s.mem|
    ensures FindMatch(s, Stored(Item(name, s.mem[g].groupId, 0, BUDDY, attrs))) == BuddyItem(s, g, name)
  {
    var it := Stored(Item(name, s.mem[g].groupId, 0, BUDDY, attrs));
    IdentIdempotent(name);
    var a, b := FindMatch(s, it), BuddyItem(s, g, name);
    if a.Some? { TheBuddy(s, g, name, a.value); }
    if b.Some? { assert Matches(s.mem[b.value], it); }
  }

  lemma DeleteMeansBuddy(s: List, g: Ptr, name: string)
    requires Ordered(s) && g < |s.mem|
    ensures DeleteItem(s, Item(name, s.mem[g].groupId, 0, BUDDY, [])).found == BuddyItem(s, g, name)
  {
    var item := Item(name, s.mem[g].groupId, 0, BUDDY, []);
    var d, b := DeleteItem(s, item).found, BuddyItem(s, g, name);
    if d.Some? { TheBuddy(s, g, name, d.value); }
    if b.Some? {
      var i :| 0 <= i < |s.items| && s.items[i] == b.value;
      assert View(s)[i] == s.mem[b.value] && Matches(View(s)[i], item);
    }
  }

  // ---- Adding a buddy ----

  // The buddy's item as AddBuddy stores it.
  function NewBuddy(s: List, g: Ptr, name: string, id: u16, attrs: seq<TLV>): Item
    requires g < |s.mem|
  {
    Item(Ident(name), s.mem[g].groupId, id, BUDDY, attrs)
  }

  // A buddy that was there keeps its id and place and gets the attributes, which is logged unless it had them. Nothing
  // else changes.
  lemma AddedAgain(s: List, group: string, g: Ptr, name: string, attrs: seq<TLV>, start: u16, b: Ptr)
    requires Ordered(s) && GroupByName(s, group) == Some(g) && BuddyItem(s, g, name) == Some(b)
    ensures var r := AddBuddyItem(s, group, name, attrs, start);
      && r.err.None? && !r.inserted && r.list.items == s.items && r.list.mem == s.mem[b := s.mem[b].(tlvs := attrs)]
      && r.list.deletes == s.deletes
      && if s.mem[b].tlvs == attrs then r.list == s else b in r.list.updates
  {
    UpsertMeansBuddy(s, g, name, attrs);
    assert ItemOk(s.mem[b]);
    UpsertedAgain(s, Item(name, s.mem[g].groupId, 0, BUDDY, attrs), b, attrs, start);
  }

  lemma UpsertedAgain(s: List, item: Item, b: Ptr, attrs: seq<TLV>, start: u16)
    requires Wf(s) && FindMatch(s, Stored(item)) == Some(b) && item.classId == BUDDY && item.tlvs == attrs
    requires IsBuddyOf(s.mem[b], item.groupId, item.name) && s.mem[b].name == Ident(s.mem[b].name)
    ensures var r := UpsertItem(s, item, start);
      && !r.inserted && r.list.items == s.items && r.list.mem == s.mem[b := s.mem[b].(tlvs := attrs)]
      && r.list.deletes == s.deletes
      && if s.mem[b].tlvs == attrs then r.list == s else b in r.list.updates
  {
    assert Stored(item).(itemId := s.mem[b].itemId, groupId := s.mem[b].groupId) == s.mem[b].(tlvs := attrs);
    if SameContent(s.mem[b], Stored(item)) { assert s.mem[b].(tlvs := attrs) == s.mem[b]; }
  }

  // A new buddy is the last item, and its id, fresh from the allocator, the last one in its group's order.
  lemma AddedNew(s: List, group: string, g: Ptr, name: string, attrs: seq<TLV>, start: u16)
    requires Ordered(s) && GroupByName(s, group) == Some(g) && BuddyItem(s, g, name).None?
    ensures var r, id := AddBuddyItem(s, group, name, attrs, start), GenId(View(s), start);
      && r.err.None? && r.inserted && r.list.items == s.items + [|s.mem|]
      && r.list.mem == (s.mem + [NewBuddy(s, g, name, id, attrs)])[g := AppendMember(s.mem[g], id)]
  {
    UpsertMeansBuddy(s, g, name, attrs);
  }

  // What AddBuddy leaves: the buddy under its name with the attributes, and the order of its group with the id last if
  // the buddy is new and as it was if not.
  ghost predicate AddedAt(s: List, r: List, g: Ptr, name: string, attrs: seq<TLV>, q: Ptr)
    requires Wf(s) && Wf(r) && g < |s.mem| && g < |r.mem| && q < |r.mem|
  {
    && g in Live(r) && r.mem[g].IsGroup() && BuddyItem(r, g, name) == Some(q) && r.mem[q].tlvs == attrs
    && Order(r.mem[g].tlvs) == Order(s.mem[g].tlvs) + if BuddyItem(s, g, name).None? then [r.mem[q].itemId] else []
  }

  lemma AddBuddyPlaces(s: List, group: string, g: Ptr, name: string, attrs: seq<TLV>, start: u16) returns (q: Ptr)
    requires Ordered(s) && Room(s) && GroupByName(s, group) == Some(g)
    ensures var r := AddBuddyItem(s, group, name, attrs, start);
      && r.err.None? && (r.inserted <==> BuddyItem(s, g, name).None?) && Ordered(r.list)
      && g < |r.list.mem| && q < |r.list.mem| && AddedAt(s, r.list, g, name, attrs, q)
  {
    AddBuddyItemKeeps(s, group, name, attrs, start);
    match BuddyItem(s, g, name)
    case Some(b) =>
      q := b;
      AddedAgain(s, group, g, name, attrs, start, b);
      PlaceOfOld(s, AddBuddyItem(s, group, name, attrs, start).list, g, name, attrs, b);
    case None =>
      q := |s.mem|;
      AddedNew(s, group, g, name, attrs, start);
      PlaceOfNew(s, AddBuddyItem(s, group, name, attrs, start).list, g, name, attrs, GenId(View(s), start));
  }

  lemma PlaceOfOld(s: List, r: List, g: Ptr, name: string, attrs: seq<TLV>, b: Ptr)
    requires Ordered(s) && Ordered(r) && g in Live(s) && g < |s.mem| && s.mem[g].IsGroup()
    requires BuddyItem(s, g, name) == Some(b) && r.items == s.items && r.mem == s.mem[b := s.mem[b].(tlvs := attrs)]
    ensures g < |r.mem| && b < |r.mem| && AddedAt(s, r, g, name, attrs, b)
  {
    assert s.mem[b].classId == BUDDY && s.mem[g].classId == GROUP && b != g && b in Live(r);
    TheBuddy(r, g, name, b);
    assert Order(s.mem[g].tlvs) + [] == Order(s.mem[g].tlvs);
  }

  lemma PlaceOfNew(s: List, r: List, g: Ptr, name: string, attrs: seq<TLV>, id: u16)
    requires Ordered(s) && Ordered(r) && g in Live(s) && g < |s.mem| && s.mem[g].IsGroup()
             && BuddyItem(s, g, name).None?
    requires r.items == s.items + [|s.mem|]
    requires r.mem == (s.mem + [NewBuddy(s, g, name, id, attrs)])[g := AppendMember(s.mem[g], id)]
    ensures g < |r.mem| && |s.mem| < |r.mem| && AddedAt(s, r, g, name, attrs, |s.mem|)
  {
    var q := |s.mem|;
    AppendMemberOrder(s.mem[g], id);
    IdentIdempotent(name);
    LiveWithOne(s, r, q);
    assert r.mem[q] == NewBuddy(s, g, name, id, attrs) && r.mem[g] == AppendMember(s.mem[g], id);
    TheBuddy(r, g, name, q);
  }

  // ---- Deleting a buddy ----

  // A buddy that is deleted from a group leaves its order, in which the others stay as they were.
  lemma DeleteFromPlaces(s: List, g: Ptr, name: string)
    requires Ordered(s) && g in Live(s) && g < |s.mem|
    ensures var r, b := DeleteFrom(s, g, name), BuddyItem(s, g, name);
      && r.mem == (if b.None? then s.mem else s.mem[g := RemoveMember(s.mem[g], s.mem[b.value].itemId)])
      && Order(r.mem[g].tlvs)
         == if b.None? then Order(s.mem[g].tlvs) else Without(Order(s.mem[g].tlvs), s.mem[b.value].itemId)
  {
    DeleteMeansBuddy(s, g, name);
    var b := BuddyItem(s, g, name);
    if b.Some? { RemoveMemberOrder(s.mem[g], s.mem[b.value].itemId); }
  }

  // ---- Moving a buddy ----

  // The item id before which a move is to put the buddy, if there is such a buddy in the group.
  function Mark(s: List, g: Ptr, before: string): Option<u16>
    requires Wf(s) && g < |s.mem|
  {
    if before == "" then None
    else match BuddyItem(s, g, before) case Some(b) => Some(s.mem[b].itemId) case None => None
  }

  // An order after one id was moved: the others keep their order among themselves, and the id directly precedes the
  // mark. It stays where it is without a mark, and goes last when it is itself the mark.
  ghost predicate PlacedAt(was: seq<u16>, ids: seq<u16>, id: u16, mark: Option<u16>) {
    match mark
    case None => ids == was
    case Some(m) =>
      && IdSet(ids) == IdSet(was) && Without(ids, id) == Without(was, id)
      && if m == id then ids == Without(was, id) + [id] else Follows(ids, id, m)
  }

  lemma MovedPlaces(was: seq<u16>, id: u16, mark: u16)
    requires Distinct(was) && id in was && mark in was
    ensures PlacedAt(was, MovedBefore(was, id, mark), id, Some(mark))
  {
    MovedBeforeKeepsIds(was, id, mark);
    InsertWithout(Without(was, id), id, mark);
    if mark == id { InsertLast(Without(was, id), id); }
  }

  // A buddy of a group is in its order.
  lemma InOrder(s: List, g: Ptr, m: Ptr)
    requires Ordered(s) && g in Live(s) && s.mem[g].IsGroup() && m in Live(s)
    requires s.mem[m].classId == BUDDY && s.mem[m].groupId == s.mem[g].groupId
    ensures HasTag(s.mem[g].tlvs, ORDER) && Distinct(Order(s.mem[g].tlvs)) && s.mem[m].itemId in Order(s.mem[g].tlvs)
  {
    assert Indexed(Live(s), s.mem, s.mem[g]);
    assert s.mem[m].itemId in BuddyIds(Live(s), s.mem, s.mem[g].groupId);
    assert s.mem[m].itemId in IdSet(Order(s.mem[g].tlvs));
  }

  lemma {:induction false} InsertWithout(ids: seq<u16>, id: u16, mark: u16)
    requires id !in ids
    ensures Without(InsertBefore(ids, id, mark), id) == ids
  {
    if ids == [] {
      assert [id][1..] == [];
    } else if ids[0] == mark {
      assert ([id] + ids)[1..] == ids;
      WithoutAbsent(ids, id);
    } else {
      var r := InsertBefore(ids[1..], id, mark);
      assert ([ids[0]] + r)[1..] == r;
      InsertWithout(ids[1..], id, mark);
    }
  }

  lemma {:induction false} WithoutAbsent(ids: seq<u16>, id: u16)
    requires id !in ids
    ensures Without(ids, id) == ids
  {
    if ids != [] { WithoutAbsent(ids[1..], id); }
  }

  lemma {:induction false} InsertLast(ids: seq<u16>, id: u16)
    requires id !in ids
    ensures InsertBefore(ids, id, id) == ids + [id]
  {
    if ids != [] { InsertLast(ids[1..], id); }
  }

  // What repositioning the buddy m of a group g makes of a list.
  ghost predicate OnlyPlaced(s: List, r: List, g: Ptr, m: Ptr, mark: Option<u16>)
    requires g < |s.mem| && m < |s.mem|
  {
    && |r.mem| == |s.mem| && r.items == s.items && r.mem == s.mem[g := r.mem[g]]
    && SameRole(r.mem[g], s.mem[g]) && r.mem[g].name == s.mem[g].name
    && PlacedAt(Order(s.mem[g].tlvs), Order(r.mem[g].tlvs), s.mem[m].itemId, mark)
    && (if mark.None? then r == s else g in r.updates)
  }

  lemma RepositionEffect(s: List, g: Ptr, name: string, before: string, m: Ptr, b: Ptr)
    requires Wf(s) && g < |s.mem| && before != "" && HasTag(s.mem[g].tlvs, ORDER)
    requires BuddyItem(s, g, name) == Some(m) && BuddyItem(s, g, before) == Some(b)
    ensures var r := Reposition(s, g, name, before);
      var ids := MovedBefore(Order(s.mem[g].tlvs), s.mem[m].itemId, s.mem[b].itemId);
      && r.mem == s.mem[g := s.mem[g].(tlvs := SetOrder(s.mem[g].tlvs, ids))] && r.items == s.items && g in r.updates
  {
  }

  lemma Repositioned(s: List, g: Ptr, name: string, before: string, m: Ptr)
    requires Ordered(s) && g in Live(s) && g < |s.mem| && s.mem[g].IsGroup() && BuddyItem(s, g, name) == Some(m)
    ensures m < |s.mem| && OnlyPlaced(s, Reposition(s, g, name, before), g, m, Mark(s, g, before))
  {
    if Mark(s, g, before).Some? {
      var b := BuddyItem(s, g, before).value;
      InOrder(s, g, m);
      InOrder(s, g, b);
      RepositionEffect(s, g, name, before, m, b);
      OrderOfSetOrder(s.mem[g].tlvs, MovedBefore(Order(s.mem[g].tlvs), s.mem[m].itemId, s.mem[b].itemId));
      MovedPlaces(Order(s.mem[g].tlvs), s.mem[m].itemId, s.mem[b].itemId);
      PutPlaced(s, Reposition(s, g, name, before), g, m, s.mem[b].itemId);
    }
  }

  lemma PutPlaced(s: List, r: List, g: Ptr, m: Ptr, mark: u16)
    requires g < |s.mem| && m < |s.mem| && r.items == s.items && g in r.updates
    requires var ids := MovedBefore(Order(s.mem[g].tlvs), s.mem[m].itemId, mark);
      && r.mem == s.mem[g := s.mem[g].(tlvs := SetOrder(s.mem[g].tlvs, ids))]
      && Order(SetOrder(s.mem[g].tlvs, ids)) == ids
      && PlacedAt(Order(s.mem[g].tlvs), ids, s.mem[m].itemId, Some(mark))
    ensures OnlyPlaced(s, r, g, m, Some(mark))
  {
  }

  // Within its group, a buddy goes to just before the mark, and without one nothing changes.
  lemma MoveWithin(s: List, from: string, to: string, name: string, before: string, start: u16, g: Ptr, m: Ptr)
    requires Ordered(s) && (to == "" || to == from)
    requires GroupByName(s, from) == Some(g) && BuddyItem(s, g, name) == Some(m)
    ensures var r := MoveBuddy(s, from, to, name, before, start);
      r.1.None? && m < |s.mem| && OnlyPlaced(s, r.0, g, m, Mark(s, g, before))
  {
    Repositioned(s, g, name, before, m);
  }

  // A buddy q of the name is in the group, with the attributes, and its id in the group's order, in which it came last
  // if it was not there before, at the mark.
  ghost predicate Arrived(was: seq<u16>, known: bool, r: List, d: Ptr, name: string, before: string, attrs: seq<TLV>,
                          q: Ptr)
    requires Wf(r) && d < |r.mem| && q < |r.mem|
  {
    var id := r.mem[q].itemId;
    && BuddyItem(r, d, name) == Some(q) && r.mem[q].tlvs == attrs
    && PlacedAt(if known then was else was + [id], Order(r.mem[d].tlvs), id, Mark(r, d, before))
  }

  // To another group, a buddy takes its attributes along. If it is new there, it comes last, and from there, or from
  // where it was, it goes to just before the mark.
  lemma MoveAcross(s: List, from: string, to: string, name: string, before: string, start: u16, g: Ptr, m: Ptr, d: Ptr)
    returns (q: Ptr)
    requires Ordered(s) && Room(s) && to != "" && to != from
    requires GroupByName(s, from) == Some(g) && BuddyItem(s, g, name) == Some(m) && GroupByName(s, to) == Some(d)
    ensures d < |DeleteBuddy(s, from, name).0.mem| && m < |s.mem|
    ensures var r, s1 := MoveBuddy(s, from, to, name, before, start), DeleteBuddy(s, from, name).0;
      && r.1.None? && Ordered(r.0) && d < |r.0.mem| && q < |r.0.mem|
      && Arrived(Order(s1.mem[d].tlvs), BuddyItem(s1, d, name).Some?, r.0, d, name, before, s.mem[m].tlvs, q)
  {
    var s1 := DeleteBuddy(s, from, name).0;
    DeleteBuddyKeeps(s, from, name);
    DeleteBuddyNames(s, from, name);
    TheGroup(s1, to, d);
    MoveIsAcross(s, from, to, name, before, start, g, m, d);
    q := ArrivesAcross(s1, d, to, name, before, s.mem[m].tlvs, start);
  }

  // The second half of a move to another group.
  lemma ArrivesAcross(s: List, d: Ptr, to: string, name: string, before: string, attrs: seq<TLV>, start: u16)
    returns (q: Ptr)
    requires Ordered(s) && Room(s) && GroupByName(s, to) == Some(d)
    ensures AddBuddyItem(s, to, name, attrs, start).err.None? && d < |AddBuddyItem(s, to, name, attrs, start).list.mem|
    ensures var r := Reposition(AddBuddyItem(s, to, name, attrs, start).list, d, name, before);
      && Ordered(r) && d < |r.mem| && q < |r.mem|
      && Arrived(Order(s.mem[d].tlvs), BuddyItem(s, d, name).Some?, r, d, name, before, attrs, q)
  {
    q := AddBuddyPlaces(s, to, d, name, attrs, start);
    var s2 := AddBuddyItem(s, to, name, attrs, start).list;
    ArrivedThere(s, s2, d, name, before, attrs, q);
  }

  lemma ArrivedThere(s0: List, s: List, d: Ptr, name: string, before: string, attrs: seq<TLV>, q: Ptr)
    requires Ordered(s0) && d < |s0.mem| && Ordered(s) && d < |s.mem| && q < |s.mem|
    requires AddedAt(s0, s, d, name, attrs, q)
    ensures var r := Reposition(s, d, name, before);
      && Ordered(r) && d < |r.mem| && q < |r.mem|
      && Arrived(Order(s0.mem[d].tlvs), BuddyItem(s0, d, name).Some?, r, d, name, before, attrs, q)
  {
    var was := Order(s0.mem[d].tlvs);
    assert was + [] == was;
    RepositionKeeps(s, d, name, before);
    Repositioned(s, d, name, before, q);
    MarkStays(s, d, name, before, q);
  }

  // Repositioning moves no buddy and no mark to another item.
  lemma MarkStays(s: List, g: Ptr, name: string, before: string, m: Ptr)
    requires Ordered(s) && g in Live(s) && g < |s.mem| && s.mem[g].IsGroup() && BuddyItem(s, g, name) == Some(m)
    requires Ordered(Reposition(s, g, name, before))
    ensures var r := Reposition(s, g, name, before);
      g < |r.mem| && Mark(r, g, before) == Mark(s, g, before) && BuddyItem(r, g, name) == Some(m) && r.mem[m]
          == s.mem[m]
  {
    var r := Reposition(s, g, name, before);
    Repositioned(s, g, name, before, m);
    if Mark(s, g, before).Some? {
      assert s.mem[m].classId == BUDDY && s.mem[g].classId == GROUP;
      TheBuddy(r, g, name, m);
      TheBuddy(r, g, before, BuddyItem(s, g, before).value);
    }
  }

  // Deleting buddies renames nothing and moves nothing to another group.

  ghost predicate NamesStay(s: List, r: List) {
    && |r.mem| == |s.mem|
    && forall p: Ptr :: p < |s.mem| ==> r.mem[p].name == s.mem[p].name && SameRole(r.mem[p], s.mem[p])
  }

  lemma DeleteFromNames(s: List, g: Ptr, name: string)
    requires Ordered(s) && g in Live(s) && g < |s.mem|
    ensures NamesStay(s, DeleteFrom(s, g, name))
  {
    DeleteFromPlaces(s, g, name);
    var b := BuddyItem(s, g, name);
    if b.Some? { RemoveMemberOrder(s.mem[g], s.mem[b.value].itemId); }
    NamesOfPut(s, DeleteFrom(s, g, name), g);
  }

  lemma NamesOfPut(s: List, r: List, g: Ptr)
    requires g < |s.mem| && |r.mem| == |s.mem| && (r.mem == s.mem || r.mem == s.mem[g := r.mem[g]])
    requires r.mem[g].name == s.mem[g].name && SameRole(r.mem[g], s.mem[g])
    ensures NamesStay(s, r)
  {
  }

  lemma {:induction false} DeleteFromAllNames(s: List, gs: seq<Ptr>, name: string)
    requires Ordered(s) && forall i :: 0 <= i < |gs| ==> gs[i] in Live(s) && gs[i] < |s.mem| && s.mem[gs[i]].IsGroup()
    ensures NamesStay(s, DeleteFromAll(s, gs, name))
    decreases |gs|
  {
    if gs != [] {
      DeleteFromNames(s, gs[0], name);
      DeleteFromKeeps(s, gs[0], name);
      DeleteFromAllNames(DeleteFrom(s, gs[0], name), gs[1..], name);
    }
  }

  lemma DeleteBuddyNames(s: List, group: string, name: string)
    requires Ordered(s)
    ensures NamesStay(s, DeleteBuddy(s, group, name).0)
  {
    if group == EVERYWHERE {
      DeleteFromAllNames(s, GroupsFrom(s, 0), name);
    } else if GroupByName(s, group).Some? {
      DeleteFromNames(s, GroupByName(s, group).value, name);
    }
  }

  // ---- Attributes ----

  // The alias and the note that a buddy is added with, and no other attribute.
  lemma AddedAttributes(alias: seq<byte>, note: seq<byte>, tag: u16)
    ensures Bytes(Attributes(alias, note), 0x131) == if alias == [] then None else Some(alias)
    ensures Bytes(Attributes(alias, note), 0x13C) == if note == [] then None else Some(note)
    ensures tag != 0x131 && tag != 0x13C ==> Bytes(Attributes(alias, note), tag).None?
  {
    var list := Attributes(alias, note);
    if alias != [] && note != [] {
      assert list == [TLV(ALIAS, alias), TLV(NOTE, note)] && list[1..] == [TLV(NOTE, note)];
      assert [TLV(NOTE, note)][1..] == [] && Bytes([], tag) == None;
      assert Bytes(list[1..], tag) == if tag == NOTE then Some(note) else Bytes([], tag);
    } else if alias != [] {
      assert list == [TLV(ALIAS, alias)] && list[1..] == [];
    } else if note != [] {
      assert list == [TLV(NOTE, note)] && list[1..] == [];
    } else {
      assert list == [];
    }
  }

  // An item whose alias is set, or cleared when the new one is empty; every other attribute stays.
  ghost predicate Realiased(x: Item, y: Item, alias: seq<byte>) {
    && y == x.(tlvs := y.tlvs)
    && Bytes(y.tlvs, 0x131) == (if alias == [] then None else Some(alias))
    && forall tag: u16 :: tag != 0x131 ==> Bytes(y.tlvs, tag) == Bytes(x.tlvs, tag)
  }

  lemma AliasOfItem(s: List, p: Ptr, name: string, alias: seq<byte>)
    requires Wf(s) && p < |s.mem|
    ensures var r, x := AliasItem(s, p, name, alias), s.mem[p];
      && r.mem == s.mem[p := r.mem[p]]
      && (if x.classId == 0 && Ident(x.name) == Ident(name) then Realiased(x, r.mem[p], alias) && p in r.updates
          else r == s)
      && forall u :: u in s.updates ==> u in r.updates
  {
    var x := s.mem[p];
    forall tag: u16
      ensures tag != 0x131 ==> Bytes(Set(x.tlvs, TLV(ALIAS, alias)), tag) == Bytes(x.tlvs, tag)
      ensures tag != 0x131 ==> Bytes(Remove(x.tlvs, ALIAS), tag) == Bytes(x.tlvs, tag)
    {
      BytesSet(x.tlvs, TLV(ALIAS, alias), tag);
      BytesRemove(x.tlvs, ALIAS, tag);
    }
    BytesSet(x.tlvs, TLV(ALIAS, alias), ALIAS);
    BytesRemove(x.tlvs, ALIAS, ALIAS);
  }

  // The item p, before and after, if it was among those looked at.
  ghost predicate AliasedAt(s: List, r: List, name: string, alias: seq<byte>, p: Ptr, there: bool) {
    && p < |s.mem| && p < |r.mem|
    && if there && s.mem[p].classId == 0 && Ident(s.mem[p].name) == Ident(name)
       then Realiased(s.mem[p], r.mem[p], alias) && p in r.updates
       else r.mem[p] == s.mem[p]
  }

  lemma {:induction false} AliasExactly(s: List, name: string, alias: seq<byte>, i: nat, p: Ptr)
    requires Wf(s) && i <= |s.items| && p < |s.mem|
    ensures AliasedAt(s, AliasFrom(s, name, alias, i), name, alias, p, p in s.items[i..])
    decreases |s.items| - i
  {
    if i < |s.items| {
      AliasExactly(AliasItem(s, s.items[i], name, alias), name, alias, i + 1, p);
      AliasedFirst(s, AliasItem(s, s.items[i], name, alias), name, alias, i, p);
    }
  }

  lemma AliasedFirst(s: List, s1: List, name: string, alias: seq<byte>, i: nat, p: Ptr)
    requires Wf(s) && Wf(s1) && i < |s.items| && p < |s.mem| && s1 == AliasItem(s, s.items[i], name, alias)
    requires AliasedAt(s1, AliasFrom(s1, name, alias, i + 1), name, alias, p, p in s1.items[i + 1..])
    ensures AliasedAt(s, AliasFrom(s, name, alias, i), name, alias, p, p in s.items[i..])
  {
    var q, r := s.items[i], AliasFrom(s1, name, alias, i + 1);
    AliasedOnce(s, q, name, alias, p);
    AliasFrame(s1, name, alias, i + 1);
    assert s.items[i..] == [q] + s.items[i + 1..] && q !in s.items[i + 1..];
    AliasJoined(s, s1, r, name, alias, p, q, p in s.items[i + 1..]);
    assert AliasFrom(s, name, alias, i) == r;
  }

  lemma AliasedOnce(s: List, q: Ptr, name: string, alias: seq<byte>, p: Ptr)
    requires Wf(s) && q < |s.mem| && p < |s.mem|
    ensures AliasedAt(s, AliasItem(s, q, name, alias), name, alias, p, p == q)
  {
    AliasOfItem(s, q, name, alias);
  }

  lemma AliasJoined(s: List, s1: List, r: List, name: string, alias: seq<byte>, p: Ptr, q: Ptr, later: bool)
    requires p == q ==> !later
    requires AliasedAt(s, s1, name, alias, p, p == q) && AliasedAt(s1, r, name, alias, p, later)
    requires forall u :: u in s1.updates ==> u in r.updates
    ensures AliasedAt(s, r, name, alias, p, p == q || later)
  {
  }

  // SetBuddyAlias gives every buddy of the name the alias, logs it, and changes nothing else.
  lemma AliasingMeans(s: List, name: string, alias: seq<byte>, start: u16, p: Ptr)
    requires Wf(s) && p < |s.mem|
    ensures var r := Apply(s, Aliasing(name, alias), start);
      r.items == s.items && r.deletes == s.deletes && AliasedAt(s, r, name, alias, p, p in s.items)
  {
    AliasExactly(s, name, alias, 0, p);
    AliasFrame(s, name, alias, 0);
    assert s.items[0..] == s.items;
  }

  // It moves no item and keeps what is logged.
  lemma {:induction false} AliasFrame(s: List, name: string, alias: seq<byte>, i: nat)
    requires Wf(s) && i <= |s.items|
    ensures var r := AliasFrom(s, name, alias, i);
      r.items == s.items && |r.mem| == |s.mem| && r.deletes == s.deletes && forall u :: u in s.updates ==> u in r.updates
    decreases |s.items| - i
  {
    if i < |s.items| { AliasFrame(AliasItem(s, s.items[i], name, alias), name, alias, i + 1); }
  }

  // SetGroupCollapsed marks the group or takes the mark off, logs it, and changes nothing else.
  lemma CollapseExactly(s: List, name: string, collapsed: bool, start: u16, g: Ptr)
    requires Wf(s) && GroupByName(s, name) == Some(g)
    ensures var r := Apply(s, CollapsingGroup(name, collapsed), start);
      && r.items == s.items && r.mem == s.mem[g := s.mem[g].(tlvs := r.mem[g].tlvs)] && g in r.updates
      && Bytes(r.mem[g].tlvs, 0x134) == (if collapsed then Some([]) else None)
      && forall tag: u16 :: tag != 0x134 ==> Bytes(r.mem[g].tlvs, tag) == Bytes(s.mem[g].tlvs, tag)
  {
    var x := s.mem[g];
    forall tag: u16
      ensures tag != 0x134 ==> Bytes(Set(x.tlvs, TLV(COLLAPSED, [])), tag) == Bytes(x.tlvs, tag)
      ensures tag != 0x134 ==> Bytes(Remove(x.tlvs, COLLAPSED), tag) == Bytes(x.tlvs, tag)
    {
      BytesSet(x.tlvs, TLV(COLLAPSED, []), tag);
      BytesRemove(x.tlvs, COLLAPSED, tag);
    }
    BytesSet(x.tlvs, TLV(COLLAPSED, []), COLLAPSED);
    BytesRemove(x.tlvs, COLLAPSED, COLLAPSED);
  }

  // RenameGroup changes the name of the group and nothing else, and logs the group unless the name is the old one.
  lemma RenameExactly(s: List, oldName: string, newName: string, g: Ptr)
    requires Wf(s) && GroupByName(s, oldName) == Some(g) && (newName == oldName || GroupByName(s, newName).None?)
    ensures var r := RenameGroup(s, oldName, newName).0;
      && r.items == s.items && r.deletes == s.deletes && r.mem == s.mem[g := s.mem[g].(name := newName)]
      && (newName != oldName ==> g in r.updates) && (newName == oldName ==> r == s)
  {
  }

  // ---- The order of the groups ----

  // A new group comes last in the order of the root, without attributes of its own.
  lemma AddGroupPlaces(s: List, name: string, start: u16) returns (root: Ptr)
    requires Ordered(s) && Room(s) && GroupByName(s, name).None?
    ensures var r, id := AddGroup(s, name, start), GenId(View(s), start);
      && |s.mem| in Live(r) && |s.mem| < |r.mem| && r.mem[|s.mem|] == Item(name, id, 0, GROUP, [])
      && FindRoot(r) == Some(root)
      && Order(r.mem[root].tlvs)
         == (if FindRoot(s).Some? then Order(s.mem[FindRoot(s).value].tlvs) else []) + [id]
  {
    var id := GenId(View(s), start);
    var group := Item(name, id, 0, GROUP, []);
    AddGroupKeeps(s, name, start);
    FreshId(s, start);
    RootStays(s, Append(s, group), group);
    if FindRoot(s).Some? {
      root := FindRoot(s).value;
      EnrolledUnder(s, group, root);
      TheRoot(EnrollGroup(s, group), root);
    } else {
      root := |s.mem| + 1;
      EnrolledBeside(s, group);
      TheRoot(EnrollGroup(s, group), root);
      assert [] + [id] == [id];
    }
  }

  lemma EnrolledUnder(s: List, group: Item, root: Ptr)
    requires Wf(s) && FindRoot(s) == Some(root) && FindRoot(Append(s, group)) == Some(root)
    ensures var r := EnrollGroup(s, group);
      && |s.mem| in Live(r) && root in Live(r) && |s.mem| < |r.mem| && r.mem[|s.mem|] == group && r.mem[root].IsRoot()
      && Order(r.mem[root].tlvs) == Order(s.mem[root].tlvs) + [group.groupId]
  {
    var r := EnrollGroup(s, group);
    EnrollUnder(s, group);
    AppendMemberOrder(s.mem[root], group.groupId);
    assert r.items[|s.items|] == |s.mem| && (s.mem + [group])[root] == s.mem[root];
  }

  lemma EnrolledBeside(s: List, group: Item)
    requires Wf(s) && FindRoot(Append(s, group)).None?
    ensures var r, root := EnrollGroup(s, group), |s.mem| + 1;
      && |s.mem| in Live(r) && root in Live(r) && root < |r.mem| && r.mem[|s.mem|] == group && r.mem[root].IsRoot()
      && Order(r.mem[root].tlvs) == [group.groupId]
  {
    var r := EnrollGroup(s, group);
    EnrollBeside(s, group);
    AppendMemberOrder(NEW_ROOT, group.groupId);
    assert Order([]) == [] && [] + [group.groupId] == [group.groupId];
    assert r.items[|s.items|] == |s.mem| && r.items[|s.items| + 1] == |s.mem| + 1;
  }

  lemma TheRoot(s: List, p: Ptr)
    requires Ordered(s) && p in Live(s) && s.mem[p].IsRoot()
    ensures FindRoot(s) == Some(p)
  {
    var found := FindRoot(s);
    if found.Some? { OneRoot(s, p, found.value); }
  }

  lemma OneRoot(s: List, p: Ptr, q: Ptr)
    requires Ordered(s) && p in Live(s) && q in Live(s) && s.mem[p].IsRoot() && s.mem[q].IsRoot()
    ensures p == q
  {
    assert ItemOk(s.mem[p]) && ItemOk(s.mem[q]);
    assert p != q ==> Clash(s.mem[p], s.mem[q]);
  }

  // Another group is no root.
  lemma RootStays(s: List, s1: List, group: Item)
    requires Ordered(s) && s1 == Append(s, group) && group.IsGroup()
    ensures FindRoot(s1) == FindRoot(s)
  {
    var a, b := FindRoot(s), FindRoot(s1);
    forall p: Ptr ensures p in s1.items && s1.mem[p].IsRoot() <==> p in s.items && s.mem[p].IsRoot() {
      assert p in s1.items <==> p in s.items || p == |s.mem|;
    }
    if a.Some? && b.Some? { OneRoot(s, a.value, b.value); }
  }

  // A group that is deleted leaves the order of the root, in which the others stay as they were; no other item changes.
  lemma DeleteGroupPlaces(s: List, name: string, g: Ptr, root: Ptr)
    requires Ordered(s) && SafeToDelete(s, name) && GroupByName(s, name) == Some(g) && FindRoot(s) == Some(root)
    ensures var r := DeleteGroup(s, name);
      && root in Live(r) && r.mem == s.mem[root := r.mem[root]]
      && Order(r.mem[root].tlvs) == Without(Order(s.mem[root].tlvs), s.mem[g].groupId)
  {
    var gid := s.mem[g].groupId;
    var s1 := DeleteAll(s, Members(s, gid, 0));
    assert s.items[0..] == s.items;
    MembersGone(s, g, name);
    assert root in Live(s1);
    RootsEffect(s1, gid, root);
    RemoveMemberOrder(s.mem[root], gid);
    assert DeleteGroup(s, name) == RemoveFromRoots(s1, gid, 0);
  }

  lemma MembersGone(s: List, g: Ptr, name: string)
    requires Ordered(s) && SafeToDelete(s, name) && GroupByName(s, name) == Some(g)
    ensures var s1 := DeleteAll(s, Members(s, s.mem[g].groupId, 0));
      Sound(Live(s1), s1.mem) && s1.mem == s.mem
      && forall p :: p in Live(s1) <==> p in Live(s) && s.mem[p].groupId != s.mem[g].groupId
  {
    var gid := s.mem[g].groupId;
    var ps := Members(s, gid, 0);
    assert s.items[0..] == s.items;
    NoTraps(s, g, name);
    DeleteAllExactly(s, ps);
    forall p ensures p in Live(DeleteAll(s, ps)) <==> p in Live(s) && s.mem[p].groupId != gid {
      assert p in ps <==> p in s.items && s.mem[p].groupId == gid;
    }
  }

  lemma NoTraps(s: List, g: Ptr, name: string)
    requires Ordered(s) && SafeToDelete(s, name) && GroupByName(s, name) == Some(g)
    ensures var ps := Members(s, s.mem[g].groupId, 0);
      Deletable(s, ps) && Untrapped(s, ps) && forall i :: 0 <= i < |ps| ==> ps[i] < |s.mem|
  {
    var ps := Members(s, s.mem[g].groupId, 0);
    assert s.items[0..] == s.items;
    MembersDeletable(s, g);
    forall i | 0 <= i < |ps| ensures !Trap(s, ps[i]) {}
  }

  // ---- Entries outside the groups ----

  // An entry of the class and the name, of which letter case and spaces do not count when it is a screen name: that of
  // a permitted, denied or linked user.
  predicate IsEntry(x: Item, classId: u16, name: string) {
    x.classId == classId && if classId in {0x02, 0x03, 0x18} then Ident(x.name) == Ident(name) else x.name == name
  }

  // The first entry of the class and the name is at position i, or there is none and i is the length.
  ghost predicate EntryAt(s: List, classId: u16, name: string, i: nat)
    requires Wf(s)
  {
    && i <= |s.items| && (i < |s.items| ==> IsEntry(s.mem[s.items[i]], classId, name))
    && forall j :: 0 <= j < i ==> !IsEntry(s.mem[s.items[j]], classId, name)
  }

  function EntryName(classId: u16, name: string): string {
    if classId in {0x02, 0x03, 0x18} then Ident(name) else name
  }

  lemma MatchesEntry(s: List, item: Item, i: nat)
    requires Wf(s) && Ungrouped(item) && EntryAt(s, item.classId, item.name, i)
    ensures FindMatch(s, Stored(item)) == if i < |s.items| then Some(s.items[i]) else None
    ensures FirstMatch(s, item) == i
  {
    IdentIdempotent(item.name);
    forall j | 0 <= j < |s.items|
      ensures Matches(View(s)[j], item) <==> IsEntry(s.mem[s.items[j]], item.classId, item.name)
      ensures Matches(View(s)[j], Stored(item)) <==> IsEntry(s.mem[s.items[j]], item.classId, item.name)
    {
    }
    FirstIs(View(s), (x: Item) => Matches(x, Stored(item)), i);
    FirstIs(View(s), (x: Item) => Matches(x, item), i);
  }

  lemma {:induction false} FirstIs(items: seq<Item>, p: Item -> bool, i: nat)
    requires i <= |items| && (i < |items| ==> p(items[i])) && forall j :: 0 <= j < i ==> !p(items[j])
    ensures First(items, p) == i
  {
    if items != [] && i > 0 {
      assert !p(items[0]);
      forall j | 0 <= j < i - 1 ensures !p(items[1..][j]) { assert items[1..][j] == items[j + 1]; }
      FirstIs(items[1..], p, i - 1);
    }
  }

  // An entry that is set replaces the first of its class and name, keeping its id and place, and is logged if that
  // makes a difference.
  lemma EntryReplaced(s: List, item: Item, start: u16, i: nat)
    requires Ordered(s) && Ungrouped(item) && EntryAt(s, item.classId, item.name, i) && i < |s.items|
    ensures !UpsertItem(s, item, start).inserted
    ensures var p, r := s.items[i], Apply(s, PuttingOther(item), start);
      var x := s.mem[p].(name := EntryName(item.classId, item.name), tlvs := item.tlvs);
      && r.items == s.items && r.mem == s.mem[p := x] && r.deletes == s.deletes
      && if s.mem[p] == x then r == s else p in r.updates
  {
    assert s.items[i] in Live(s) && ItemOk(s.mem[s.items[i]]);
    MatchesEntry(s, item, i);
  }

  // Without one of that class and name, it is the last item, under a new id.
  lemma EntryAdded(s: List, item: Item, start: u16)
    requires Wf(s) && Ungrouped(item) && EntryAt(s, item.classId, item.name, |s.items|)
    ensures UpsertItem(s, item, start).inserted
    ensures var x := Item(EntryName(item.classId, item.name), 0, GenId(View(s), start), item.classId, item.tlvs);
      Apply(s, PuttingOther(item), start)
        == List(s.mem + [x], s.items + [|s.mem|], s.updates + [|s.mem|], s.deletes)
  {
    MatchesEntry(s, item, |s.items|);
  }

  // One that is deleted leaves the list and is logged.
  lemma EntryDeleted(s: List, item: Item, start: u16, i: nat)
    requires Wf(s) && Ungrouped(item) && EntryAt(s, item.classId, item.name, i)
    ensures DeleteItem(s, item).found.Some? <==> i < |s.items|
    ensures Apply(s, DeletingOther(item), start)
         == if i == |s.items| then s
            else s.(items := s.items[..i] + s.items[i + 1..], deletes := s.deletes + [s.items[i]])
  {
    MatchesEntry(s, item, i);
  }

  // With a linked account the root is logged, for the client to look again.
  lemma LinkedDeleted(s: List, name: string, i: nat)
    requires Ordered(s) && EntryAt(s, 0x18, name, i)
    ensures i == |s.items| ==> DeleteLinked(s, name) == s
    ensures i < |s.items| ==>
              var r := DeleteLinked(s, name);
              && s.items[i] !in r.items && (exists root :: FindRoot(r) == Some(root) && root in r.updates)
              && r.deletes == s.deletes + [s.items[i]] && s.mem <= r.mem
  {
    var d := DeleteItem(s, Item(name, 0, 0, ALINFO, []));
    MatchesEntry(s, Item(name, 0, 0, ALINFO, []), i);
    if i < |s.items| {
      DeleteLinkedKeeps(s, name);
      assert s.items[i] !in d.list.items;
      RootLogged(d.list);
      assert DeleteLinked(s, name) == Track(RootGroup(d.list).list, RootGroup(d.list).root);
      TheRoot(DeleteLinked(s, name), RootGroup(d.list).root);
    }
  }

  lemma RootLogged(s: List)
    requires Wf(s)
    ensures var root, r := RootGroup(s).root, Track(RootGroup(s).list, RootGroup(s).root);
      && root in Live(r) && root < |r.mem| && r.mem[root].IsRoot() && root in r.updates
      && r.deletes == s.deletes && s.mem <= r.mem && forall p :: p < |s.mem| && p !in s.items ==> p !in r.items
  {
    if FindRoot(s).None? {
      var r := Append(s, NEW_ROOT);
      assert r.items[|s.items|] == |s.mem|;
    }
  }

  // ---- Errors ----

  // Which error an edit gives, from the groups and buddies there are; with an error nothing changes.
  lemma GroupErrors(s: List, name: string, newName: string, collapsed: bool)
    requires Ordered(s)
    ensures RenameGroup(s, name, newName).1
         == if !HasGroup(Roster(s), name) then Some(GroupNotFound)
            else if newName != name && HasGroup(Roster(s), newName) then Some(GroupExists)
            else None
    ensures RenameGroup(s, name, newName).1.Some? ==> RenameGroup(s, name, newName).0 == s
    ensures SetGroupCollapsed(s, name, collapsed).1 == if !HasGroup(Roster(s), name) then Some(GroupNotFound) else None
    ensures SetGroupCollapsed(s, name, collapsed).1.Some? ==> SetGroupCollapsed(s, name, collapsed).0 == s
  {
    GroupFound(s, name);
    GroupFound(s, newName);
  }

  lemma BuddyErrors(s: List, group: string, name: string, attrs: seq<TLV>, start: u16)
    requires Ordered(s)
    ensures AddBuddyItem(s, group, name, attrs, start).err
         == if !HasGroup(Roster(s), group) then Some(GroupNotFound) else None
    ensures !HasGroup(Roster(s), group) ==>
              AddBuddyItem(s, group, name, attrs, start) == Added(s, false, Some(GroupNotFound))
    ensures DeleteBuddy(s, group, name).1
         == if group != "*" && !HasGroup(Roster(s), group) then Some(GroupNotFound) else None
    ensures DeleteBuddy(s, group, name).1.Some? ==> DeleteBuddy(s, group, name).0 == s
  {
    GroupFound(s, group);
  }

  lemma MoveErrors(s: List, from: string, to: string, name: string, before: string, start: u16)
    requires Ordered(s) && Room(s)
    ensures MoveBuddy(s, from, to, name, before, start).1
         == if !HasGroup(Roster(s), from) then Some(GroupNotFound)
            else if !HasBuddy(Roster(s), from, name) then Some(BuddyNotFound)
            else if to != "" && to != from && !HasGroup(Roster(s), to) then Some(GroupNotFound)
            else None
    ensures MoveBuddy(s, from, to, name, before, start).1.Some? ==> MoveBuddy(s, from, to, name, before, start).0 == s
  {
    GroupFound(s, from);
    GroupFound(s, to);
    InFound(s, from, name);
    if GroupByName(s, from).Some? {
      var g := GroupByName(s, from).value;
      BuddyFound(s, g, name);
      if BuddyItem(s, g, name).Some? {
        BuddyThere(s, from, name);
        if to != "" && to != from && GroupByName(s, to).Some? {
          var q := MoveAcross(s, from, to, name, before, start, g, BuddyItem(s, g, name).value, GroupByName(s,
              to).value);
        }
      }
    }
  }
}
