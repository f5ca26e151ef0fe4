/** Every edit, and so every run of edits from an empty list, keeps the order attributes exact. */
module FeedbagRuns {
  import opened Common
  import opened Tlv
  import opened FeedbagItems
  import opened FeedbagEdits
  import opened FeedbagOrder

  // The groups of a list stay where they are.
  predicate GroupsStay(s: List, r: List)
    requires Wf(s) && Wf(r)
  {
    forall p :: p in Live(s) && s.mem[p].IsGroup() ==>
                  p in Live(r) && r.mem[p].IsGroup() && r.mem[p].groupId == s.mem[p].groupId
  }

  // ---- Fresh ids ----

  lemma FreshId(s: List, start: u16)
    requires Wf(s) && Room(s)
    ensures var id := GenId(View(s), start);
            id != 0 && forall p :: p in Live(s) ==> s.mem[p].groupId != id && s.mem[p].itemId != id
  {
    GenIdFresh(View(s), start);
    forall p | p in Live(s)
      ensures s.mem[p].groupId != GenId(View(s), start) && s.mem[p].itemId != GenId(View(s), start)
    {
      var i :| 0 <= i < |s.items| && s.items[i] == p;
      assert View(s)[i] == s.mem[p];
    }
  }

  // ---- Upserts ----

  lemma UpsertReplaces(s: List, item: Item, p: Ptr, start: u16)
    requires Ordered(s) && FindMatch(s, Stored(item)) == Some(p)
    requires item.classId == BUDDY || Ungrouped(item)
    ensures Ordered(UpsertItem(s, item, start).list) && GroupsStay(s, UpsertItem(s, item, start).list)
    ensures Live(UpsertItem(s, item, start).list) == Live(s)
  {
    var it, x := Stored(item), s.mem[p];
    if !SameContent(x, it) {
      var it' := it.(itemId := x.itemId, groupId := x.groupId);
      ReplacementFits(s, item, p, it');
      Rewrite(Live(s), s.mem, p, it');
      UpsertWrites(s, item, p, start);
    }
  }

  lemma UpsertWrites(s: List, item: Item, p: Ptr, start: u16)
    requires Wf(s) && FindMatch(s, Stored(item)) == Some(p) && !SameContent(s.mem[p], Stored(item))
    ensures var r := UpsertItem(s, item, start).list;
      && r.mem == s.mem[p := Stored(item).(itemId := s.mem[p].itemId, groupId := s.mem[p].groupId)]
      && r.items == s.items
  {
  }

  lemma ReplacementFits(s: List, item: Item, p: Ptr, it': Item)
    requires Ordered(s) && FindMatch(s, Stored(item)) == Some(p)
    requires item.classId == BUDDY || Ungrouped(item)
    requires it' == Stored(item).(itemId := s.mem[p].itemId, groupId := s.mem[p].groupId)
    ensures SameRole(it', s.mem[p]) && it'.name == s.mem[p].name && ItemOk(it')
    ensures forall q :: q in Live(s) && q != p ==> !Clash(it', s.mem[q]) && !Clash(s.mem[q], it')
  {
    var x := s.mem[p];
    StoredTwice(item);
    assert ItemOk(x);
    if HasScreenName(item.classId) {
      IdentIdempotent(item.name);
      assert Ident(x.name) == x.name;
    }
    forall q | q in Live(s) && q != p ensures !Clash(it', s.mem[q]) && !Clash(s.mem[q], it') {
      assert !Clash(x, s.mem[q]) && !Clash(s.mem[q], x);
    }
  }

  lemma UpsertOther(s: List, item: Item, start: u16)
    requires Ordered(s) && Room(s) && Ungrouped(item)
    ensures Ordered(UpsertItem(s, item, start).list)
  {
    var it := Stored(item);
    StoredTwice(item);
    match FindMatch(s, it)
    case Some(p) => UpsertReplaces(s, item, p, start);
    case None =>
      FreshId(s, start);
      var x := it.(itemId := GenId(View(s), start));
      InsertNeutral(Live(s), s.mem, x);
      LiveAppend(s, x);
      assert Live(UpsertItem(s, item, start).list) == Live(Append(s, x));
  }

  // ---- Groups ----

  // A group item that no item of the list stands in the way of.
  ghost predicate Newcomer(live: set<Ptr>, mem: seq<Item>, group: Item) {
    && group == Item(group.name, group.groupId, 0, GROUP, []) && group.IsGroup()
    && (forall q :: q in live && q < |mem| ==> mem[q].groupId != group.groupId)
    && (forall q :: q in live && q < |mem| && mem[q].IsGroup() ==> mem[q].name != group.name)
  }

  lemma ArrivesUnderRoot(live: set<Ptr>, mem: seq<Item>, group: Item, r: Ptr)
    requires Sound(live, mem) && Newcomer(live, mem, group)
    requires r in live && mem[r].IsRoot() && Lists(mem[r], GroupIds(live, mem))
    ensures GroupArrives(live, mem, |mem|, r, (mem + [group])[r := AppendMember(mem[r], group.groupId)])
  {
    AppendMemberOrder(mem[r], group.groupId);
    ListsAppended(mem[r], GroupIds(live, mem), group.groupId);
    assert Order(group.tlvs) == [];
  }

  lemma ArrivesWithRoot(live: set<Ptr>, mem: seq<Item>, group: Item)
    requires Sound(live, mem) && Newcomer(live, mem, group)
    requires !HasRoot(live, mem) && GroupIds(live, mem) == {} && forall q :: q in live ==> mem[q].Key() != (0, 0)
    ensures GroupArrives(live, mem, |mem|, |mem| + 1, mem + [group] + [AppendMember(NEW_ROOT, group.groupId)])
  {
    AppendMemberOrder(NEW_ROOT, group.groupId);
    assert Order(NEW_ROOT.tlvs) == [] && Lists(NEW_ROOT, {}) && ItemOk(NEW_ROOT);
    ListsAppended(NEW_ROOT, {}, group.groupId);
    assert Order(group.tlvs) == [];
    assert {} + {group.groupId} == GroupIds(live, mem) + {group.groupId};
  }

  // What enrolling leaves in memory and in the list, in each of its two cases.
  lemma EnrollEffect(s: List, group: Item)
    requires Wf(s)
    ensures var r := EnrollGroup(s, group);
            match FindRoot(Append(s, group))
            case Some(root) =>
              && r.mem == (s.mem + [group])[root := AppendMember((s.mem + [group])[root], group.groupId)]
              && r.items == s.items + [|s.mem|]
            case None =>
              && r.mem == s.mem + [group] + [AppendMember(NEW_ROOT, group.groupId)]
              && r.items == s.items + [|s.mem|, |s.mem| + 1]
  {
    if FindRoot(Append(s, group)).None? { EnrollBeside(s, group); } else { EnrollUnder(s, group); }
  }

  lemma EnrollUnder(s: List, group: Item)
    requires Wf(s) && FindRoot(Append(s, group)).Some?
    ensures var r, root := EnrollGroup(s, group), FindRoot(Append(s, group)).value;
      && r.mem == (s.mem + [group])[root := AppendMember((s.mem + [group])[root], group.groupId)]
      && r.items == s.items + [|s.mem|]
  {}

  lemma EnrollBeside(s: List, group: Item)
    requires Wf(s) && FindRoot(Append(s, group)).None?
    ensures var r := EnrollGroup(s, group);
      && r.mem == s.mem + [group] + [AppendMember(NEW_ROOT, group.groupId)]
      && r.items == s.items + [|s.mem|, |s.mem| + 1]
  {
    assert s.items + [|s.mem|] + [|s.mem| + 1] == s.items + [|s.mem|, |s.mem| + 1];
    LastPut(s.mem + [group], NEW_ROOT, AppendMember(NEW_ROOT, group.groupId));
  }

  lemma LastPut(mem: seq<Item>, x: Item, y: Item)
    ensures (mem + [x])[|mem| := y] == mem + [y]
  {}

  lemma LiveWithOne(s: List, r: List, p: Ptr)
    requires r.items == s.items + [p]
    ensures Live(r) == Live(s) + {p}
  {}

  lemma LiveWithTwo(s: List, r: List, p: Ptr, q: Ptr)
    requires r.items == s.items + [p, q]
    ensures Live(r) == Live(s) + {p, q}
  {}

  lemma AddGroupUnderRoot(s: List, group: Item, r: Ptr)
    requires Ordered(s) && Newcomer(Live(s), s.mem, group) && r in Live(s) && s.mem[r].IsRoot()
    ensures Consistent(Live(s) + {|s.mem|}, (s.mem + [group])[r := AppendMember(s.mem[r], group.groupId)])
  {
    var n := |s.mem|;
    assert Indexed(Live(s), s.mem, s.mem[r]);
    ArrivesUnderRoot(Live(s), s.mem, group, r);
    InsertGroup(Live(s), s.mem, n, r, (s.mem + [group])[r := AppendMember(s.mem[r], group.groupId)]);
    assert Live(s) + {n, r} == Live(s) + {n};
  }

  lemma EnrollUnderRoot(s: List, group: Item, root: Ptr)
    requires Ordered(s) && Newcomer(Live(s), s.mem, group) && FindRoot(Append(s, group)) == Some(root)
    ensures Ordered(EnrollGroup(s, group))
  {
    EnrollUnder(s, group);
    assert root in Live(s) && s.mem[root].IsRoot();
    AddGroupUnderRoot(s, group, root);
    LiveWithOne(s, EnrollGroup(s, group), |s.mem|);
  }

  lemma EnrollWithRoot(s: List, group: Item)
    requires Ordered(s) && Newcomer(Live(s), s.mem, group) && FindRoot(Append(s, group)).None?
    ensures Ordered(EnrollGroup(s, group))
  {
    EnrollBeside(s, group);
    AddGroupWithRoot(s, group);
    LiveWithTwo(s, EnrollGroup(s, group), |s.mem|, |s.mem| + 1);
  }

  lemma AddGroupWithRoot(s: List, group: Item)
    requires Ordered(s) && Newcomer(Live(s), s.mem, group) && FindRoot(Append(s, group)).None?
    ensures Consistent(Live(s) + {|s.mem|, |s.mem| + 1}, s.mem + [group] + [AppendMember(NEW_ROOT, group.groupId)])
  {
    NoRoot(s, Append(s, group));
    ArrivesWithRoot(Live(s), s.mem, group);
    InsertGroup(Live(s), s.mem, |s.mem|, |s.mem| + 1, s.mem + [group] + [AppendMember(NEW_ROOT, group.groupId)]);
  }

  lemma EnrollGroupsStay(s: List, group: Item)
    requires Wf(s)
    ensures GroupsStay(s, EnrollGroup(s, group))
  {
    var r := EnrollGroup(s, group);
    EnrollEffect(s, group);
    forall p | p in Live(s) && s.mem[p].IsGroup()
      ensures p in Live(r) && r.mem[p].IsGroup() && r.mem[p].groupId == s.mem[p].groupId {}
  }

  lemma EnrollKeeps(s: List, group: Item)
    requires Ordered(s) && Newcomer(Live(s), s.mem, group)
    ensures Ordered(EnrollGroup(s, group)) && GroupsStay(s, EnrollGroup(s, group))
  {
    EnrollGroupsStay(s, group);
    match FindRoot(Append(s, group))
    case Some(root) => EnrollUnderRoot(s, group, root);
    case None => EnrollWithRoot(s, group);
  }

  lemma AddGroupKeeps(s: List, name: string, start: u16)
    requires Ordered(s) && Room(s)
    ensures Ordered(AddGroup(s, name, start)) && GroupsStay(s, AddGroup(s, name, start))
  {
    if GroupByName(s, name).None? {
      FreshId(s, start);
      var group := Item(name, GenId(View(s), start), 0, GROUP, []);
      assert Newcomer(Live(s), s.mem, group);
      EnrollKeeps(s, group);
    }
  }

  // A list to whose memory a group was added still has no root, no group, and nothing under the root's key.
  lemma NoRoot(s: List, s1: List)
    requires Ordered(s) && Wf(s1) && s.mem <= s1.mem && Live(s) <= Live(s1)
    requires FindRoot(s1).None?
    ensures !HasRoot(Live(s), s.mem) && GroupIds(Live(s), s.mem) == {}
    ensures forall q :: q in Live(s) ==> s.mem[q].Key() != (0, 0)
  {
    forall q | q in Live(s) ensures !s.mem[q].IsRoot() && s.mem[q].Key() != (0, 0) {
      assert q in s1.items && s1.mem[q] == s.mem[q];
      assert ItemOk(s.mem[q]);
    }
  }

  lemma RewriteGroup(s: List, g: Ptr, x: Item)
    requires Ordered(s) && g in Live(s) && s.mem[g].IsGroup() && SameRole(x, s.mem[g])
    requires forall q :: q in Live(s) && q != g && s.mem[q].IsGroup() ==> s.mem[q].name != x.name
    requires Distinct(Order(x.tlvs)) && IdSet(Order(x.tlvs)) == IdSet(Order(s.mem[g].tlvs))
    ensures Ordered(Track(Put(s, g, x), g)) && GroupsStay(s, Track(Put(s, g, x), g))
  {
    forall q | q in Live(s) && q != g ensures !Clash(x, s.mem[q]) && !Clash(s.mem[q], x) {
      assert !Clash(s.mem[g], s.mem[q]);
    }
    assert ItemOk(s.mem[g]);
    Rewrite(Live(s), s.mem, g, x);
  }

  // What a rewrite of a group's other attributes leaves alone.
  lemma GroupOrderDistinct(s: List, g: Ptr)
    requires Ordered(s) && g in Live(s) && s.mem[g].IsGroup()
    ensures Distinct(Order(s.mem[g].tlvs))
    ensures IdSet(Order(s.mem[g].tlvs)) == BuddyIds(Live(s), s.mem, s.mem[g].groupId)
    ensures forall q :: q in Live(s) && q != g && s.mem[q].IsGroup() ==> s.mem[q].name != s.mem[g].name
  {
    assert Indexed(Live(s), s.mem, s.mem[g]);
    forall q | q in Live(s) && q != g && s.mem[q].IsGroup() ensures s.mem[q].name != s.mem[g].name {
      assert !Clash(s.mem[q], s.mem[g]);
    }
  }

  lemma RenameGroupKeeps(s: List, oldName: string, newName: string)
    requires Ordered(s)
    ensures Ordered(RenameGroup(s, oldName, newName).0)
  {
    var found := GroupByName(s, oldName);
    if found.Some? && newName != oldName && GroupByName(s, newName).None? {
      GroupOrderDistinct(s, found.value);
      RewriteGroup(s, found.value, s.mem[found.value].(name := newName));
    }
  }

  lemma SetGroupCollapsedKeeps(s: List, name: string, collapsed: bool)
    requires Ordered(s)
    ensures Ordered(SetGroupCollapsed(s, name, collapsed).0)
  {
    var found := GroupByName(s, name);
    if found.Some? {
      var g := found.value;
      GroupOrderDistinct(s, g);
      OrderUntouched(s.mem[g].tlvs, TLV(COLLAPSED, []));
      var tlvs := if collapsed then Set(s.mem[g].tlvs, TLV(COLLAPSED, [])) else Remove(s.mem[g].tlvs, COLLAPSED);
      RewriteGroup(s, g, s.mem[g].(tlvs := tlvs));
    }
  }

  // ---- Buddies ----

  lemma NewBuddy(s: List, g: Ptr, it: Item, start: u16)
    requires Ordered(s) && Room(s) && g in Live(s) && s.mem[g].IsGroup()
    requires it.classId == BUDDY && it.groupId == s.mem[g].groupId && Stored(it) == it
    requires FindMatch(s, it).None?
    ensures var x := it.(itemId := GenId(View(s), start));
            Consistent(Live(s) + {|s.mem|}, (s.mem + [x])[g := AppendMember(s.mem[g], x.itemId)])
  {
    FreshId(s, start);
    var x := it.(itemId := GenId(View(s), start));
    forall q | q in Live(s) ensures !Clash(x, s.mem[q]) && !Clash(s.mem[q], x) {
      assert q in s.items && !Matches(s.mem[q], it);
    }
    InsertBuddy(Live(s), s.mem, g, x);
  }

  lemma AddBuddyItemKeeps(s: List, groupName: string, name: string, attrs: seq<TLV>, start: u16)
    requires Ordered(s) && Room(s)
    ensures Ordered(AddBuddyItem(s, groupName, name, attrs, start).list)
    ensures GroupsStay(s, AddBuddyItem(s, groupName, name, attrs, start).list)
  {
    AddBuddyItemStays(s, groupName, name, attrs, start);
    AddBuddyItemOrdered(s, groupName, name, attrs, start);
  }

  lemma AddBuddyItemStays(s: List, groupName: string, name: string, attrs: seq<TLV>, start: u16)
    requires Wf(s)
    ensures GroupsStay(s, AddBuddyItem(s, groupName, name, attrs, start).list)
  {
    var found := GroupByName(s, groupName);
    if found.Some? {
      var item := Item(name, s.mem[found.value].groupId, 0, BUDDY, attrs);
      BuddyUpsertStays(s, item, start);
    }
  }

  lemma BuddyUpsertStays(s: List, item: Item, start: u16)
    requires Wf(s) && item.classId == BUDDY
    ensures GroupsStay(s, UpsertItem(s, item, start).list)
  {
    match FindMatch(s, Stored(item))
    case Some(p) => assert !s.mem[p].IsGroup();
    case None => LiveAppend(s, Stored(item).(itemId := GenId(View(s), start)));
  }

  lemma AddBuddyItemOrdered(s: List, groupName: string, name: string, attrs: seq<TLV>, start: u16)
    requires Ordered(s) && Room(s)
    ensures Ordered(AddBuddyItem(s, groupName, name, attrs, start).list)
  {
    var found := GroupByName(s, groupName);
    if found.Some? {
      var g := found.value;
      var item := Item(name, s.mem[g].groupId, 0, BUDDY, attrs);
      var it := Stored(item);
      StoredTwice(item);
      match FindMatch(s, it)
      case Some(p) => UpsertReplaces(s, item, p, start);
      case None =>
        NewBuddy(s, g, it, start);
        AddedEffect(s, groupName, name, attrs, start);
        LiveAppend(s, it.(itemId := GenId(View(s), start)));
    }
  }

  // What adding a new buddy does to the memory and the list.
  lemma AddedEffect(s: List, groupName: string, name: string, attrs: seq<TLV>, start: u16)
    requires Wf(s) && GroupByName(s, groupName).Some?
    requires FindMatch(s, Stored(Item(name, s.mem[GroupByName(s, groupName).value].groupId, 0, BUDDY, attrs))).None?
    ensures var g := GroupByName(s, groupName).value;
      var x := Stored(Item(name, s.mem[g].groupId, 0, BUDDY, attrs)).(itemId := GenId(View(s), start));
      var r := AddBuddyItem(s, groupName, name, attrs, start).list;
      r.mem == (s.mem + [x])[g := AppendMember(s.mem[g], x.itemId)] && r.items == Append(s, x).items
  {
  }

  lemma DeleteItemLive(s: List, item: Item)
    requires Wf(s)
    ensures var d := DeleteItem(s, item);
            Live(d.list) == Live(s) - if d.found.Some? then {d.found.value} else {}
  {
    var i := FirstMatch(s, item);
    if i < |s.items| { LiveDrop(s, i); }
  }

  lemma DeleteFromKeeps(s: List, g: Ptr, name: string)
    requires Ordered(s) && g in Live(s) && s.mem[g].IsGroup()
    ensures Ordered(DeleteFrom(s, g, name)) && GroupsStay(s, DeleteFrom(s, g, name))
    ensures |DeleteFrom(s, g, name).items| <= |s.items|
  {
    var item := Item(name, s.mem[g].groupId, 0, BUDDY, []);
    var d := DeleteItem(s, item);
    DeleteFromStays(s, g, name);
    DeleteItemLive(s, item);
    if d.found.Some? {
      var b := d.found.value;
      RemoveBuddy(Live(s), s.mem, g, b);
      RemoveMemberOrder(s.mem[g], s.mem[b].itemId);
    }
  }

  lemma DeleteFromStays(s: List, g: Ptr, name: string)
    requires Wf(s) && g in Live(s) && s.mem[g].IsGroup()
    ensures GroupsStay(s, DeleteFrom(s, g, name)) && |DeleteFrom(s, g, name).items| <= |s.items|
  {
    var item := Item(name, s.mem[g].groupId, 0, BUDDY, []);
    DeleteItemLive(s, item);
    var d := DeleteItem(s, item);
    if d.found.Some? {
      assert s.mem[d.found.value].classId == BUDDY;
      var r := DeleteFrom(s, g, name);
      forall p | p in Live(s) && s.mem[p].IsGroup()
        ensures p in Live(r) && r.mem[p].IsGroup() && r.mem[p].groupId == s.mem[p].groupId
      {
        assert p != d.found.value;
      }
    }
  }

  lemma {:induction false} DeleteFromAllKeeps(s: List, gs: seq<Ptr>, name: string)
    requires Ordered(s) && forall i :: 0 <= i < |gs| ==> gs[i] in Live(s) && gs[i] < |s.mem| && s.mem[gs[i]].IsGroup()
    ensures Ordered(DeleteFromAll(s, gs, name)) && GroupsStay(s, DeleteFromAll(s, gs, name))
    ensures |DeleteFromAll(s, gs, name).items| <= |s.items|
    decreases |gs|
  {
    if gs != [] {
      DeleteFromKeeps(s, gs[0], name);
      DeleteFromAllKeeps(DeleteFrom(s, gs[0], name), gs[1..], name);
    }
  }

  lemma DeleteBuddyKeeps(s: List, groupName: string, name: string)
    requires Ordered(s)
    ensures Ordered(DeleteBuddy(s, groupName, name).0) && GroupsStay(s, DeleteBuddy(s, groupName, name).0)
    ensures |DeleteBuddy(s, groupName, name).0.items| <= |s.items|
  {
    if groupName == EVERYWHERE {
      DeleteFromAllKeeps(s, GroupsFrom(s, 0), name);
    } else {
      var found := GroupByName(s, groupName);
      if found.Some? { DeleteFromKeeps(s, found.value, name); }
    }
  }

  lemma RepositionKeeps(s: List, g: Ptr, name: string, before: string)
    requires Ordered(s) && g in Live(s) && s.mem[g].IsGroup()
    ensures Ordered(Reposition(s, g, name, before))
  {
    var m, b := BuddyItem(s, g, name), BuddyItem(s, g, before);
    if before != "" && m.Some? && b.Some? && HasTag(s.mem[g].tlvs, ORDER) {
      var x, id := s.mem[g], s.mem[m.value].itemId;
      GroupOrderDistinct(s, g);
      assert id in BuddyIds(Live(s), s.mem, x.groupId);
      var ids := MovedBefore(Order(x.tlvs), id, s.mem[b.value].itemId);
      MovedBeforeKeepsIds(Order(x.tlvs), id, s.mem[b.value].itemId);
      OrderOfSetOrder(x.tlvs, ids);
      RewriteGroup(s, g, x.(tlvs := SetOrder(x.tlvs, ids)));
    }
  }

  lemma MoveBuddyKeeps(s: List, from: string, to: string, name: string, before: string, start: u16)
    requires Ordered(s) && Room(s)
    ensures Ordered(MoveBuddy(s, from, to, name, before, start).0)
  {
    var src := GroupByName(s, from);
    if src.Some? && BuddyItem(s, src.value, name).Some? {
      if to == "" || to == from {
        RepositionKeeps(s, src.value, name, before);
      } else {
        var dst := GroupByName(s, to);
        if dst.Some? {
          var s1 := DeleteBuddy(s, from, name).0;
          DeleteBuddyKeeps(s, from, name);
          var attrs := s.mem[BuddyItem(s, src.value, name).value].tlvs;
          AddBuddyItemKeeps(s1, to, name, attrs, start);
          var s2 := AddBuddyItem(s1, to, name, attrs, start);
          if s2.err.None? { RepositionKeeps(s2.list, dst.value, name, before); }
        }
      }
    }
  }

  lemma AttributesKeep(s: List, p: Ptr, tlvs: seq<TLV>)
    requires Ordered(s) && p in Live(s) && s.mem[p].classId == BUDDY
    ensures Ordered(Track(Put(s, p, s.mem[p].(tlvs := tlvs)), p))
  {
    var x, x' := s.mem[p], s.mem[p].(tlvs := tlvs);
    assert ItemOk(x);
    forall q | q in Live(s) && q != p ensures !Clash(x', s.mem[q]) && !Clash(s.mem[q], x') {
      assert !Clash(x, s.mem[q]) && !Clash(s.mem[q], x);
    }
    Rewrite(Live(s), s.mem, p, x');
  }

  lemma AliasItemKeeps(s: List, p: Ptr, name: string, alias: seq<byte>)
    requires Ordered(s) && p in Live(s)
    ensures Ordered(AliasItem(s, p, name, alias))
  {
    var x := s.mem[p];
    if x.classId == BUDDY && Ident(x.name) == Ident(name) {
      AttributesKeep(s, p, if alias != [] then Set(x.tlvs, TLV(ALIAS, alias)) else Remove(x.tlvs, ALIAS));
    }
  }

  lemma {:induction false} AliasKeeps(s: List, name: string, alias: seq<byte>, i: nat)
    requires Ordered(s) && i <= |s.items|
    ensures Ordered(AliasFrom(s, name, alias, i))
    decreases |s.items| - i
  {
    if i < |s.items| {
      AliasItemKeeps(s, s.items[i], name, alias);
      AliasKeeps(AliasItem(s, s.items[i], name, alias), name, alias, i + 1);
    }
  }

  // ---- Entries outside the groups ----

  lemma DeleteOtherKeeps(s: List, item: Item)
    requires Ordered(s) && Ungrouped(item)
    ensures Ordered(DeleteItem(s, item).list)
  {
    var d := DeleteItem(s, item);
    DeleteItemLive(s, item);
    if d.found.Some? { RemoveNeutral(Live(s), s.mem, d.found.value); }
  }

  lemma DeleteLinkedKeeps(s: List, name: string)
    requires Ordered(s)
    ensures Ordered(DeleteLinked(s, name))
  {
    var item := Item(name, 0, 0, ALINFO, []);
    DeleteOtherKeeps(s, item);
    var d := DeleteItem(s, item).list;
    if FindRoot(d).None? {
      NoRoot(d, d);
      assert Order(NEW_ROOT.tlvs) == [];
      InsertNeutral(Live(d), d.mem, NEW_ROOT);
      LiveAppend(d, NEW_ROOT);
    }
  }
}
