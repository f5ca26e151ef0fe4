/**
 The pending logs against the stored feedbag: when replaying them makes the store equal to the list, for each of
 the two orders in which callers replay them.
 */
module FeedbagSync {
  import opened Common
  import opened Tlv
  import opened FeedbagItems
  import opened FeedbagEdits
  import opened FeedbagOrder
  import opened FeedbagRuns
  import opened FeedbagDeletion

  type Key = (u16, u16)

  // One user's rows of the feedbag table.
  type Store = map<Key, Item>

  // FeedbagUpsert and FeedbagDelete.
  function UpsertRows(store: Store, items: seq<Item>): Store
    decreases |items|
  {
    if items == [] then store
    else UpsertRows(store[items[0].Key() := Stored(items[0])], items[1..])
  }

  function DeleteRows(store: Store, items: seq<Item>): Store
    decreases |items|
  {
    if items == [] then store else DeleteRows(store - {items[0].Key()}, items[1..])
  }

  // What PendingUpdates and PendingDeletes hand out: the items the logs point at, as they are now.
  function Snapshot(mem: seq<Item>, ptrs: seq<Ptr>): (items: seq<Item>)
    requires forall i :: 0 <= i < |ptrs| ==> ptrs[i] < |mem|
    ensures |items| == |ptrs|
  {
    seq(|ptrs|, i requires 0 <= i < |ptrs| => mem[ptrs[i]])
  }

  ghost function KeysOf(mem: seq<Item>, ptrs: set<Ptr>): set<Key> {
    set p | p in ptrs && p < |mem| :: mem[p].Key()
  }

  function Ptrs(ps: seq<Ptr>): set<Ptr> { set p | p in ps }

  // The store holds exactly the items of the list, by key.
  ghost predicate Reflects(store: Store, s: List) {
    && Wf(s)
    && store.Keys == KeysOf(s.mem, Live(s))
    && forall p :: p in Live(s) ==> s.mem[p].Key() in store && store[s.mem[p].Key()] == Stored(s.mem[p])
  }

  // ---- The log invariant ----

  ghost predicate KeysDistinct(live: set<Ptr>, mem: seq<Item>) {
    && (forall p :: p in live ==> p < |mem|)
    && (forall p, q :: p in live && q in live && p != q ==> mem[p].Key() != mem[q].Key())
    && (forall p :: p in live && mem[p].Key() == (0, 0) ==> mem[p].classId == GROUP)
  }

  // Updates are logged once each; of two with one key the earlier is no longer in the list.
  ghost predicate LogOk(live: set<Ptr>, mem: seq<Item>, log: seq<Ptr>) {
    && (forall i :: 0 <= i < |log| ==> log[i] < |mem|)
    && (forall i, j :: 0 <= i < j < |log| ==> log[i] != log[j])
    && (forall i, j :: 0 <= i < j < |log| && mem[log[i]].Key() == mem[log[j]].Key() ==> log[i] !in live)
  }

  // The list against the store it was loaded from: every item is logged, or stored as it is and no deleted item's
  // namesake by key; every stored row is an item's or a deleted item's. Pointers in `skip` are about to be logged.
  ghost predicate Tracks(s: List, base: Store, skip: set<Ptr>) {
    && Wf(s)
    && KeysDistinct(Live(s), s.mem)
    && LogOk(Live(s), s.mem, s.updates)
    && (forall p :: p in Live(s) && p !in skip && p !in s.updates ==>
                      && s.mem[p].Key() in base && base[s.mem[p].Key()] == Stored(s.mem[p])
                      && s.mem[p].Key() !in KeysOf(s.mem, Ptrs(s.deletes)))
    && base.Keys <= KeysOf(s.mem, Live(s)) + KeysOf(s.mem, Ptrs(s.deletes))
    && Ptrs(s.updates) <= Live(s) + Ptrs(s.deletes)
    && Live(s) !! Ptrs(s.deletes)
  }

  // ---- The primitive changes keep it ----

  lemma PutTracks(s: List, base: Store, skip: set<Ptr>, p: Ptr, x: Item)
    requires Tracks(s, base, skip) && p in Live(s) && SameRole(x, s.mem[p])
    ensures Tracks(Track(Put(s, p, x), p), base, skip - {p})
  {
    var s1 := Put(s, p, x);
    assert KeysOf(s1.mem, Live(s1)) == KeysOf(s.mem, Live(s)) by { SameKeys(s.mem, s1.mem, Live(s)); }
    assert KeysOf(s1.mem, Ptrs(s1.deletes)) == KeysOf(s.mem, Ptrs(s.deletes)) by {
      SameKeys(s.mem, s1.mem, Ptrs(s.deletes));
    }
    assert Tracks(s1, base, skip + {p});
    TrackTracks(s1, base, skip + {p}, p);
    assert skip + {p} - {p} == skip - {p};
  }

  lemma SameKeys(a: seq<Item>, b: seq<Item>, ptrs: set<Ptr>)
    requires |a| <= |b| && forall p :: p in ptrs ==> p < |a| && a[p].Key() == b[p].Key()
    ensures KeysOf(a, ptrs) == KeysOf(b, ptrs)
  {}

  lemma TrackTracks(s: List, base: Store, skip: set<Ptr>, p: Ptr)
    requires Tracks(s, base, skip) && p in Live(s)
    ensures Tracks(Track(s, p), base, skip - {p})
  {
    var r := Track(s, p);
    assert Live(r) == Live(s);
    assert Ptrs(r.updates) == Ptrs(s.updates) + {p};
  }

  lemma AppendTracks(s: List, base: Store, skip: set<Ptr>, x: Item)
    requires Tracks(s, base, skip)
    requires forall p :: p in Live(s) ==> s.mem[p].Key() != x.Key()
    requires x.Key() == (0, 0) ==> x.classId == GROUP
    ensures Tracks(Append(s, x), base, skip + {|s.mem|})
  {
    var r, n := Append(s, x), |s.mem|;
    LiveAppend(s, x);
    SameKeys(s.mem, r.mem, Live(s));
    SameKeys(s.mem, r.mem, Ptrs(s.deletes));
    assert KeysOf(r.mem, Live(s)) <= KeysOf(r.mem, Live(r));
    assert KeysOf(r.mem, Ptrs(s.deletes)) <= KeysOf(r.mem, Ptrs(r.deletes));
  }

  lemma DropTracks(s: List, base: Store, skip: set<Ptr>, i: nat)
    requires Tracks(s, base, skip) && i < |s.items|
    ensures Tracks(Drop(s, i), base, skip)
  {
    var r, p := Drop(s, i), s.items[i];
    LiveDrop(s, i);
    assert Ptrs(r.deletes) == Ptrs(s.deletes) + {p};
    assert Live(s) == Live(r) + {p};
    assert KeysOf(r.mem, Live(r) + {p}) + KeysOf(s.mem, Ptrs(s.deletes))
        == KeysOf(r.mem, Live(r)) + KeysOf(r.mem, Ptrs(r.deletes));
  }

  // ---- Every edit keeps it ----

  lemma FreshKey(s: List, start: u16)
    requires Wf(s) && Room(s)
    ensures var id := GenId(View(s), start);
            id != 0 && forall p :: p in Live(s) ==> s.mem[p].Key() != (id, 0) && s.mem[p].itemId != id
  {
    FreshId(s, start);
  }

  lemma NewItemTracks(s: List, base: Store, it: Item, start: u16)
    requires Tracks(s, base, {}) && Room(s)
    ensures var x := it.(itemId := GenId(View(s), start));
            var s1 := Append(s, x);
            && Tracks(s1.(updates := s1.updates + [|s.mem|]), base, {})
            && Live(s1) == Live(s) + {|s.mem|}
  {
    FreshKey(s, start);
    var x, n := it.(itemId := GenId(View(s), start)), |s.mem|;
    var s1 := Append(s, x);
    AppendTracks(s, base, {}, x);
    LiveAppend(s, x);
    TrackTracks(s1, base, {} + {n}, n);
    assert n !in s1.updates;
    assert {} + {n} - {n} == {};
  }

  ghost predicate UpsertOk(s: List, base: Store, up: Upserted)
    requires Wf(s)
  {
    && Tracks(up.list, base, {}) && up.ptr in Live(up.list)
    && Live(up.list) == Live(s) + (if up.inserted then {up.ptr} else {})
    && (forall p :: p in Live(s) ==> p < |up.list.mem| && SameRole(up.list.mem[p], s.mem[p]))
  }

  lemma PutOk(s: List, base: Store, p: Ptr, x: Item)
    requires Tracks(s, base, {}) && p in Live(s) && SameRole(x, s.mem[p])
    ensures UpsertOk(s, base, Upserted(Track(Put(s, p, x), p), p, false))
  {
    PutTracks(s, base, {}, p, x);
    assert {} - {p} == {};
  }

  lemma UpsertExisting(s: List, base: Store, item: Item, start: u16, p: Ptr)
    requires Tracks(s, base, {}) && FindMatch(s, Stored(item)) == Some(p)
    ensures UpsertOk(s, base, UpsertItem(s, item, start))
  {
    var x, it := s.mem[p], Stored(item);
    if !SameContent(x, it) { PutOk(s, base, p, it.(itemId := x.itemId, groupId := x.groupId)); }
  }

  lemma UpsertNew(s: List, base: Store, item: Item, start: u16)
    requires Tracks(s, base, {}) && Room(s) && FindMatch(s, Stored(item)).None?
    ensures UpsertOk(s, base, UpsertItem(s, item, start))
  {
    NewItemTracks(s, base, Stored(item), start);
    var s1 := Append(s, Stored(item).(itemId := GenId(View(s), start)));
    assert UpsertItem(s, item, start) == Upserted(s1.(updates := s1.updates + [|s.mem|]), |s.mem|, true);
  }

  lemma UpsertTracks(s: List, base: Store, item: Item, start: u16)
    requires Tracks(s, base, {}) && Room(s)
    ensures UpsertOk(s, base, UpsertItem(s, item, start))
  {
    match FindMatch(s, Stored(item))
    case Some(p) => UpsertExisting(s, base, item, start, p);
    case None => UpsertNew(s, base, item, start);
  }

  lemma RootTracks(s: List, base: Store, skip: set<Ptr>)
    requires Tracks(s, base, skip) && |s.mem| !in skip
    ensures var r := RootGroup(s);
            && Tracks(r.list, base, skip) && r.root in Live(r.list) && Live(s) <= Live(r.list) && s.mem <= r.list.mem
  {
    if FindRoot(s).None? {
      forall p | p in Live(s) ensures s.mem[p].Key() != (0, 0) {
        assert p in s.items && !s.mem[p].IsRoot();
      }
      AppendTracks(s, base, skip, NEW_ROOT);
      LiveAppend(s, NEW_ROOT);
      TrackTracks(Append(s, NEW_ROOT), base, skip + {|s.mem|}, |s.mem|);
      assert skip + {|s.mem|} - {|s.mem|} == skip;
    }
  }

  lemma EnrollTracks(s: List, base: Store, group: Item)
    requires Tracks(s, base, {}) && group.groupId != 0
    requires forall p :: p in Live(s) ==> s.mem[p].Key() != group.Key()
    ensures Tracks(EnrollGroup(s, group), base, {})
  {
    var s1, n := Append(s, group), |s.mem|;
    AppendTracks(s, base, {}, group);
    LiveAppend(s, group);
    assert {} + {n} == {n};
    RootTracks(s1, base, {n});
    var Rooted(s2, root) := RootGroup(s1);
    var root' := AppendMember(s2.mem[root], group.groupId);
    PutTracks(s2, base, {n}, root, root');
    var s3 := Track(Put(s2, root, root'), root);
    assert n in Live(s1) && n in Live(s3);
    TrackTracks(s3, base, {n} - {root}, n);
    assert {n} - {root} - {n} == {};
  }

  lemma AddGroupTracks(s: List, base: Store, name: string, start: u16)
    requires Tracks(s, base, {}) && Room(s)
    ensures Tracks(AddGroup(s, name, start), base, {})
  {
    if GroupByName(s, name).None? {
      FreshKey(s, start);
      EnrollTracks(s, base, Item(name, GenId(View(s), start), 0, GROUP, []));
    }
  }

  lemma DeleteTracks(s: List, base: Store, item: Item)
    requires Tracks(s, base, {})
    ensures Tracks(DeleteItem(s, item).list, base, {})
  {
    var i := FirstMatch(s, item);
    if i < |s.items| { DropTracks(s, base, {}, i); }
  }

  lemma {:induction false} DeleteAllTracks(s: List, base: Store, ps: seq<Ptr>)
    requires Tracks(s, base, {}) && forall i :: 0 <= i < |ps| ==> ps[i] < |s.mem|
    ensures Tracks(DeleteAll(s, ps), base, {})
    decreases |ps|
  {
    if ps != [] {
      DeleteTracks(s, base, s.mem[ps[0]]);
      DeleteAllTracks(DeleteItem(s, s.mem[ps[0]]).list, base, ps[1..]);
    }
  }

  lemma {:induction false} RemoveFromRootsTracks(s: List, base: Store, gid: u16, i: nat)
    requires Tracks(s, base, {}) && i <= |s.items|
    ensures Tracks(RemoveFromRoots(s, gid, i), base, {})
    decreases |s.items| - i
  {
    if i < |s.items| {
      var p := s.items[i];
      if s.mem[p].IsRoot() {
        var x := RemoveMember(s.mem[p], gid);
        PutTracks(s, base, {}, p, x);
        RemoveFromRootsTracks(Track(Put(s, p, x), p), base, gid, i + 1);
      } else {
        RemoveFromRootsTracks(s, base, gid, i + 1);
      }
    }
  }

  lemma DeleteGroupTracks(s: List, base: Store, name: string)
    requires Tracks(s, base, {})
    ensures Tracks(DeleteGroup(s, name), base, {})
  {
    var g := GroupByName(s, name);
    if g.Some? {
      var gid := s.mem[g.value].groupId;
      DeleteAllTracks(s, base, Members(s, gid, 0));
      RemoveFromRootsTracks(DeleteAll(s, Members(s, gid, 0)), base, gid, 0);
    }
  }

  lemma DeleteFromTracks(s: List, base: Store, g: Ptr, name: string)
    requires Tracks(s, base, {}) && g in Live(s) && s.mem[g].IsGroup()
    ensures Tracks(DeleteFrom(s, g, name), base, {}) && GroupsStay(s, DeleteFrom(s, g, name))
    ensures |DeleteFrom(s, g, name).items| <= |s.items|
  {
    var item := Item(name, s.mem[g].groupId, 0, BUDDY, []);
    var d := DeleteItem(s, item);
    DeleteFromStays(s, g, name);
    DeleteTracks(s, base, item);
    DeleteItemLive(s, item);
    if d.found.Some? {
      assert g in Live(d.list);
      PutTracks(d.list, base, {}, g, RemoveMember(s.mem[g], s.mem[d.found.value].itemId));
    }
  }

  lemma {:induction false} DeleteFromAllTracks(s: List, base: Store, gs: seq<Ptr>, name: string)
    requires Tracks(s, base, {})
    requires forall i :: 0 <= i < |gs| ==> gs[i] in Live(s) && gs[i] < |s.mem| && s.mem[gs[i]].IsGroup()
    ensures Tracks(DeleteFromAll(s, gs, name), base, {}) && GroupsStay(s, DeleteFromAll(s, gs, name))
    ensures |DeleteFromAll(s, gs, name).items| <= |s.items|
    decreases |gs|
  {
    if gs != [] {
      DeleteFromTracks(s, base, gs[0], name);
      DeleteFromAllTracks(DeleteFrom(s, gs[0], name), base, gs[1..], name);
    }
  }

  lemma DeleteBuddyTracks(s: List, base: Store, groupName: string, name: string)
    requires Tracks(s, base, {})
    ensures Tracks(DeleteBuddy(s, groupName, name).0, base, {}) && GroupsStay(s, DeleteBuddy(s, groupName, name).0)
    ensures |DeleteBuddy(s, groupName, name).0.items| <= |s.items|
  {
    if groupName == EVERYWHERE {
      DeleteFromAllTracks(s, base, GroupsFrom(s, 0), name);
    } else {
      var g := GroupByName(s, groupName);
      if g.Some? { DeleteFromTracks(s, base, g.value, name); }
    }
  }

  lemma AddBuddyItemTracks(s: List, base: Store, groupName: string, name: string, attrs: seq<TLV>, start: u16)
    requires Tracks(s, base, {}) && Room(s)
    ensures Tracks(AddBuddyItem(s, groupName, name, attrs, start).list, base, {})
    ensures GroupsStay(s, AddBuddyItem(s, groupName, name, attrs, start).list)
  {
    AddBuddyItemStays(s, groupName, name, attrs, start);
    var found := GroupByName(s, groupName);
    if found.Some? {
      var g := found.value;
      var item := Item(name, s.mem[g].groupId, 0, BUDDY, attrs);
      UpsertTracks(s, base, item, start);
      var up := UpsertItem(s, item, start);
      if up.inserted {
        PutTracks(up.list, base, {}, g, AppendMember(up.list.mem[g], up.list.mem[up.ptr].itemId));
      }
    }
  }

  lemma RepositionTracks(s: List, base: Store, g: Ptr, name: string, before: string)
    requires Tracks(s, base, {}) && g in Live(s)
    ensures Tracks(Reposition(s, g, name, before), base, {})
  {
    var m, b := BuddyItem(s, g, name), BuddyItem(s, g, before);
    if before != "" && m.Some? && b.Some? && HasTag(s.mem[g].tlvs, ORDER) {
      var ids := MovedBefore(Order(s.mem[g].tlvs), s.mem[m.value].itemId, s.mem[b.value].itemId);
      PutTracks(s, base, {}, g, s.mem[g].(tlvs := SetOrder(s.mem[g].tlvs, ids)));
    }
  }

  lemma MoveBuddyTracks(s: List, base: Store, from: string, to: string, name: string, before: string, start: u16)
    requires Tracks(s, base, {}) && Room(s)
    ensures Tracks(MoveBuddy(s, from, to, name, before, start).0, base, {})
  {
    var src := GroupByName(s, from);
    if src.Some? && BuddyItem(s, src.value, name).Some? {
      if to == "" || to == from {
        RepositionTracks(s, base, src.value, name, before);
      } else {
        var dst := GroupByName(s, to);
        if dst.Some? {
          var s1 := DeleteBuddy(s, from, name).0;
          DeleteBuddyTracks(s, base, from, name);
          var attrs := s.mem[BuddyItem(s, src.value, name).value].tlvs;
          AddBuddyItemTracks(s1, base, to, name, attrs, start);
          var s2 := AddBuddyItem(s1, to, name, attrs, start);
          if s2.err.None? { RepositionTracks(s2.list, base, dst.value, name, before); }
        }
      }
    }
  }

  lemma AliasItemTracks(s: List, base: Store, p: Ptr, name: string, alias: seq<byte>)
    requires Tracks(s, base, {}) && p in Live(s)
    ensures Tracks(AliasItem(s, p, name, alias), base, {})
  {
    var x := s.mem[p];
    if x.classId == BUDDY && Ident(x.name) == Ident(name) {
      PutTracks(s, base, {}, p,
                x.(tlvs := if alias != [] then Set(x.tlvs, TLV(ALIAS, alias)) else Remove(x.tlvs, ALIAS)));
    }
  }

  lemma {:induction false} AliasTracks(s: List, base: Store, name: string, alias: seq<byte>, i: nat)
    requires Tracks(s, base, {}) && i <= |s.items|
    ensures Tracks(AliasFrom(s, name, alias, i), base, {})
    decreases |s.items| - i
  {
    if i < |s.items| {
      AliasItemTracks(s, base, s.items[i], name, alias);
      AliasTracks(AliasItem(s, s.items[i], name, alias), base, name, alias, i + 1);
    }
  }

  lemma DeleteLinkedTracks(s: List, base: Store, name: string)
    requires Tracks(s, base, {})
    ensures Tracks(DeleteLinked(s, name), base, {})
  {
    var item := Item(name, 0, 0, ALINFO, []);
    DeleteTracks(s, base, item);
    var d := DeleteItem(s, item);
    if d.found.Some? {
      RootTracks(d.list, base, {});
      var Rooted(s1, root) := RootGroup(d.list);
      TrackTracks(s1, base, {}, root);
    }
  }

  lemma RenameGroupTracks(s: List, base: Store, oldName: string, newName: string)
    requires Tracks(s, base, {})
    ensures Tracks(RenameGroup(s, oldName, newName).0, base, {})
  {
    var g := GroupByName(s, oldName);
    if g.Some? { PutTracks(s, base, {}, g.value, s.mem[g.value].(name := newName)); }
  }

  lemma SetGroupCollapsedTracks(s: List, base: Store, name: string, collapsed: bool)
    requires Tracks(s, base, {})
    ensures Tracks(SetGroupCollapsed(s, name, collapsed).0, base, {})
  {
    var g := GroupByName(s, name);
    if g.Some? {
      var x := s.mem[g.value];
      var tlvs := if collapsed then Set(x.tlvs, TLV(COLLAPSED, [])) else Remove(x.tlvs, COLLAPSED);
      PutTracks(s, base, {}, g.value, x.(tlvs := tlvs));
    }
  }

  lemma GroupEditTracks(s: List, base: Store, e: Edit, start: u16)
    requires Tracks(s, base, {}) && Room(s)
    requires e.AddingGroup? || e.DeletingGroup? || e.RenamingGroup? || e.CollapsingGroup?
    ensures Tracks(Apply(s, e, start), base, {})
  {
    match e
    case AddingGroup(name) => AddGroupTracks(s, base, name, start);
    case DeletingGroup(name) => DeleteGroupTracks(s, base, name);
    case RenamingGroup(o, n) => RenameGroupTracks(s, base, o, n);
    case CollapsingGroup(name, c) => SetGroupCollapsedTracks(s, base, name, c);
  }

  lemma AddingBuddyTracks(s: List, base: Store, g: string, n: string, alias: seq<byte>, note: seq<byte>, start: u16)
    requires Tracks(s, base, {}) && Room(s)
    ensures Tracks(AddBuddy(s, g, n, alias, note, start).list, base, {})
  {
    AddBuddyItemTracks(s, base, g, n, Attributes(alias, note), start);
  }

  lemma DeletingBuddyTracks(s: List, base: Store, g: string, n: string)
    requires Tracks(s, base, {})
    ensures Tracks(DeleteBuddy(s, g, n).0, base, {})
  {
    DeleteBuddyTracks(s, base, g, n);
  }

  lemma BuddyEditTracks(s: List, base: Store, e: Edit, start: u16)
    requires Tracks(s, base, {}) && Room(s)
    requires e.AddingBuddy? || e.DeletingBuddy? || e.MovingBuddy? || e.Aliasing?
    ensures Tracks(Apply(s, e, start), base, {})
  {
    if e.AddingBuddy? {
      AddingBuddyTracks(s, base, e.group, e.name, e.alias, e.note, start);
    } else if e.DeletingBuddy? {
      DeletingBuddyTracks(s, base, e.group, e.name);
    } else if e.MovingBuddy? {
      MoveBuddyTracks(s, base, e.from, e.to, e.name, e.before, start);
    } else {
      AliasTracks(s, base, e.name, e.alias, 0);
    }
  }

  lemma EditTracks(s: List, base: Store, e: Edit, start: u16)
    requires Tracks(s, base, {}) && Room(s)
    ensures Tracks(Apply(s, e, start), base, {})
  {
    match e
    case PuttingOther(item) => UpsertTracks(s, base, item, start);
    case DeletingOther(item) => DeleteTracks(s, base, item);
    case DeletingLinked(n) => DeleteLinkedTracks(s, base, n);
    case _ =>
      if e.AddingBuddy? || e.DeletingBuddy? || e.MovingBuddy? || e.Aliasing? {
        BuddyEditTracks(s, base, e, start);
      } else {
        GroupEditTracks(s, base, e, start);
      }
  }

  ghost predicate RoomyRun(s: List, es: seq<(Edit, u16)>)
    requires Wf(s)
    decreases |es|
  {
    es != [] ==> Room(s) && RoomyRun(Apply(s, es[0].0, es[0].1), es[1..])
  }

  lemma {:induction false} RunTracks(s: List, base: Store, es: seq<(Edit, u16)>)
    requires Tracks(s, base, {}) && RoomyRun(s, es)
    ensures Tracks(Run(s, es), base, {})
    decreases |es|
  {
    if es != [] {
      EditTracks(s, base, es[0].0, es[0].1);
      RunTracks(Apply(s, es[0].0, es[0].1), base, es[1..]);
    }
  }
}
