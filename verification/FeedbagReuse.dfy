/**
 Over whole runs: as long as no new item takes an id of a pending delete, replaying the updates and then the deletes
 brings the store to the state of the list.
 */
module FeedbagReuse {
  import opened Common
  import opened Tlv
  import opened FeedbagItems
  import opened FeedbagEdits
  import opened FeedbagOrder
  import opened FeedbagRuns
  import opened FeedbagDeletion
  import opened FeedbagSync
  import opened FeedbagReplay

  // The group and item ids of the items whose deletion is pending.
  function DeletedIds(s: List): set<u16>
    requires Wf(s)
  {
    (set i | 0 <= i < |s.deletes| :: s.mem[s.deletes[i]].groupId)
    + (set i | 0 <= i < |s.deletes| :: s.mem[s.deletes[i]].itemId)
  }

  // The id that was drawn for an item.
  function OwnId(x: Item): u16 { if x.IsGroup() then x.groupId else x.itemId }

  // The items that an edit adds, other than the root with its fixed key, have ids of no pending delete.
  ghost predicate NoReuse(s: List, e: Edit, start: u16)
    requires Wf(s)
  {
    var r := Apply(s, e, start);
    forall p | p in Live(r) && |s.mem| <= p < |r.mem| && r.mem[p].Key() != (0, 0) :: OwnId(r.mem[p]) !in DeletedIds(r)
  }

  ghost predicate NoReuseRun(s: List, es: seq<(Edit, u16)>)
    requires Wf(s)
    decreases |es|
  {
    es != [] ==> NoReuse(s, es[0].0, es[0].1) && NoReuseRun(Apply(s, es[0].0, es[0].1), es[1..])
  }

  // ---- What every edit leaves alone ----

  // Old items keep their keys, none of them comes back, and what is newly deleted was in the list and has left it.
  ghost predicate Frame(s: List, r: List) {
    && Wf(s) && Wf(r) && |s.mem| <= |r.mem|
    && (forall p :: 0 <= p < |s.mem| ==> r.mem[p].Key() == s.mem[p].Key())
    && (forall p :: p in Live(r) && p < |s.mem| ==> p in Live(s))
    && (forall d :: d in Ptrs(r.deletes) ==> d in Ptrs(s.deletes) || (d in Live(s) && d !in Live(r)))
  }

  // The item under the root's key stays.
  ghost predicate RootStays(s: List, r: List)
    requires Wf(s)
  {
    forall p :: p in Live(s) && s.mem[p].Key() == (0, 0) ==> p in Live(r)
  }

  ghost predicate Framed(s: List, r: List) { Frame(s, r) && RootStays(s, r) }

  lemma FrameTrans(s: List, r: List, t: List)
    requires Framed(s, r) && Framed(r, t) && (|r.mem| == |s.mem| || t.deletes == r.deletes)
    ensures Framed(s, t)
  {
    forall p | p in Live(s) && s.mem[p].Key() == (0, 0) ensures p in Live(t) {
      assert p in Live(r) && r.mem[p].Key() == (0, 0);
    }
    forall d | d in Ptrs(t.deletes) ensures d in Ptrs(s.deletes) || (d in Live(s) && d !in Live(t)) {
      if d in Ptrs(r.deletes) && d !in Ptrs(s.deletes) { assert d in Live(s) && d !in Live(r) && d < |s.mem|; }
    }
  }

  lemma PutFrame(s: List, p: Ptr, x: Item)
    requires Wf(s) && p < |s.mem| && x.Key() == s.mem[p].Key()
    ensures Framed(s, Put(s, p, x)) && Framed(s, Track(Put(s, p, x), p)) && Framed(s, Track(s, p))
  {
  }

  lemma AppendFrame(s: List, x: Item)
    requires Wf(s)
    ensures Framed(s, Append(s, x))
  {
    LiveAppend(s, x);
  }

  // Deleting by match puts the item that was found into the log.
  lemma DeleteFrame(s: List, item: Item)
    requires Wf(s)
    ensures Frame(s, DeleteItem(s, item).list)
    ensures item.classId != GROUP && KeysDistinct(Live(s), s.mem) ==> RootStays(s, DeleteItem(s, item).list)
  {
    DeleteItemLive(s, item);
    var d := DeleteItem(s, item);
    if d.found.Some? {
      assert d.list.deletes == s.deletes + [d.found.value];
    }
  }

  lemma {:induction false} DeleteAllFrame(s: List, ps: seq<Ptr>)
    requires Wf(s) && forall i :: 0 <= i < |ps| ==> ps[i] < |s.mem|
    ensures Frame(s, DeleteAll(s, ps))
    decreases |ps|
  {
    if ps != [] {
      var s1 := DeleteItem(s, s.mem[ps[0]]).list;
      DeleteFrame(s, s.mem[ps[0]]);
      DeleteAllFrame(s1, ps[1..]);
      FrameThen(s, s1, DeleteAll(s1, ps[1..]));
    }
  }

  lemma FrameThen(s: List, r: List, t: List)
    requires Frame(s, r) && Frame(r, t) && |r.mem| == |s.mem|
    ensures Frame(s, t)
  {
    forall d | d in Ptrs(t.deletes) ensures d in Ptrs(s.deletes) || (d in Live(s) && d !in Live(t)) {
      if d in Ptrs(r.deletes) && d !in Ptrs(s.deletes) { assert d in Live(s) && d !in Live(r) && d < |s.mem|; }
    }
  }

  lemma {:induction false} RootsFrame(s: List, gid: u16, i: nat)
    requires Wf(s) && i <= |s.items|
    ensures Framed(s, RemoveFromRoots(s, gid, i)) && |RemoveFromRoots(s, gid, i).mem| == |s.mem|
    decreases |s.items| - i
  {
    if i < |s.items| {
      var p := s.items[i];
      if s.mem[p].IsRoot() {
        var x := RemoveMember(s.mem[p], gid);
        PutFrame(s, p, x);
        var s1 := Track(Put(s, p, x), p);
        RootsFrame(s1, gid, i + 1);
        FrameTrans(s, s1, RemoveFromRoots(s1, gid, i + 1));
      } else {
        RootsFrame(s, gid, i + 1);
      }
    }
  }

  lemma AliasItemFrame(s: List, p: Ptr, name: string, alias: seq<byte>)
    requires Wf(s) && p < |s.mem|
    ensures Framed(s, AliasItem(s, p, name, alias))
  {
    var x := s.mem[p];
    PutFrame(s, p, x.(tlvs := if alias != [] then Set(x.tlvs, TLV(ALIAS, alias)) else Remove(x.tlvs, ALIAS)));
  }

  lemma {:induction false} AliasFrame(s: List, name: string, alias: seq<byte>, i: nat)
    requires Wf(s) && i <= |s.items|
    ensures Framed(s, AliasFrom(s, name, alias, i)) && |AliasFrom(s, name, alias, i).mem| == |s.mem|
    decreases |s.items| - i
  {
    if i < |s.items| {
      var s1 := AliasItem(s, s.items[i], name, alias);
      AliasItemFrame(s, s.items[i], name, alias);
      AliasFrame(s1, name, alias, i + 1);
      FrameTrans(s, s1, AliasFrom(s1, name, alias, i + 1));
    }
  }

  lemma OrderedKeys(s: List)
    requires Ordered(s)
    ensures KeysDistinct(Live(s), s.mem)
  {
    forall p, q | p in Live(s) && q in Live(s) && p != q ensures s.mem[p].Key() != s.mem[q].Key() {
      assert !Clash(s.mem[p], s.mem[q]);
    }
    forall p | p in Live(s) ensures ItemOk(s.mem[p]) {}
  }

  // ---- Edit by edit ----

  lemma RootFrame(s: List)
    requires Wf(s)
    ensures Framed(s, RootGroup(s).list) && RootGroup(s).list.deletes == s.deletes
  {
    if FindRoot(s).None? {
      var s1 := Append(s, NEW_ROOT);
      AppendFrame(s, NEW_ROOT);
      PutFrame(s1, |s.mem|, NEW_ROOT);
      FrameTrans(s, s1, Track(s1, |s.mem|));
    }
  }

  lemma AddGroupFrame(s: List, name: string, start: u16)
    requires Wf(s)
    ensures Framed(s, AddGroup(s, name, start)) && AddGroup(s, name, start).deletes == s.deletes
  {
    if GroupByName(s, name).None? {
      EnrollFrame(s, Item(name, GenId(View(s), start), 0, GROUP, []));
    }
  }

  lemma EnrollFrame(s: List, group: Item)
    requires Wf(s)
    ensures Framed(s, EnrollGroup(s, group)) && EnrollGroup(s, group).deletes == s.deletes
  {
    var s1 := Append(s, group);
    var Rooted(s2, root) := RootGroup(s1);
    var x := AppendMember(s2.mem[root], group.groupId);
    var s3 := Track(Put(s2, root, x), root);
    AppendFrame(s, group);
    RootFrame(s1);
    FrameTrans(s, s1, s2);
    PutFrame(s2, root, x);
    FrameTrans(s, s2, s3);
    PutFrame(s3, |s.mem|, s3.mem[|s.mem|]);
    FrameTrans(s, s3, Track(s3, |s.mem|));
  }

  lemma DeleteGroupFrame(s: List, name: string)
    requires Ordered(s) && SafeToDelete(s, name)
    ensures Framed(s, DeleteGroup(s, name))
  {
    var found := GroupByName(s, name);
    if found.Some? {
      var gid := s.mem[found.value].groupId;
      var ps := Members(s, gid, 0);
      assert s.items[0..] == s.items;
      var s1 := DeleteAll(s, ps);
      DeleteAllFrame(s, ps);
      RootsFrame(s1, gid, 0);
      FrameThen(s, s1, RemoveFromRoots(s1, gid, 0));
      SafeDeletion(s, name);
    }
  }

  lemma UpsertFrame(s: List, item: Item, start: u16)
    requires Wf(s)
    ensures var up := UpsertItem(s, item, start); Framed(s, up.list) && up.list.deletes == s.deletes
  {
    var it := Stored(item);
    match FindMatch(s, it)
    case Some(p) => PutFrame(s, p, it.(itemId := s.mem[p].itemId, groupId := s.mem[p].groupId));
    case None => AppendFrame(s, it.(itemId := GenId(View(s), start)));
  }

  lemma AddBuddyFrame(s: List, group: string, name: string, attrs: seq<TLV>, start: u16)
    requires Wf(s)
    ensures var r := AddBuddyItem(s, group, name, attrs, start).list; Framed(s, r) && r.deletes == s.deletes
  {
    var found := GroupByName(s, group);
    if found.Some? {
      var g := found.value;
      var item := Item(name, s.mem[g].groupId, 0, BUDDY, attrs);
      UpsertFrame(s, item, start);
      var up := UpsertItem(s, item, start);
      if up.inserted {
        var x := AppendMember(up.list.mem[g], up.list.mem[up.ptr].itemId);
        PutFrame(up.list, g, x);
        FrameTrans(s, up.list, Track(Put(up.list, g, x), g));
      }
    }
  }

  lemma DeleteFromFrame(s: List, g: Ptr, name: string)
    requires Ordered(s) && g in Live(s)
    ensures Framed(s, DeleteFrom(s, g, name))
  {
    var item := Item(name, s.mem[g].groupId, 0, BUDDY, []);
    var d := DeleteItem(s, item);
    OrderedKeys(s);
    DeleteFrame(s, item);
    if d.found.Some? {
      var x := RemoveMember(s.mem[g], s.mem[d.found.value].itemId);
      PutFrame(d.list, g, x);
      FrameTrans(s, d.list, Track(Put(d.list, g, x), g));
    }
  }

  lemma {:induction false} DeleteFromAllFrame(s: List, gs: seq<Ptr>, name: string)
    requires Ordered(s) && forall i :: 0 <= i < |gs| ==> gs[i] in Live(s) && gs[i] < |s.mem| && s.mem[gs[i]].IsGroup()
    ensures Framed(s, DeleteFromAll(s, gs, name))
    decreases |gs|
  {
    if gs != [] {
      var s1 := DeleteFrom(s, gs[0], name);
      DeleteFromFrame(s, gs[0], name);
      DeleteFromKeeps(s, gs[0], name);
      DeleteFromAllFrame(s1, gs[1..], name);
      FrameTrans(s, s1, DeleteFromAll(s1, gs[1..], name));
    }
  }

  lemma DeleteBuddyFrame(s: List, group: string, name: string)
    requires Ordered(s)
    ensures Framed(s, DeleteBuddy(s, group, name).0)
  {
    if group == EVERYWHERE {
      DeleteFromAllFrame(s, GroupsFrom(s, 0), name);
    } else {
      var found := GroupByName(s, group);
      if found.Some? { DeleteFromFrame(s, found.value, name); }
    }
  }

  lemma RepositionFrame(s: List, g: Ptr, name: string, before: string)
    requires Wf(s) && g < |s.mem|
    ensures Framed(s, Reposition(s, g, name, before)) && Reposition(s, g, name, before).deletes == s.deletes
  {
    var m, b := BuddyItem(s, g, name), BuddyItem(s, g, before);
    if before != "" && m.Some? && b.Some? && HasTag(s.mem[g].tlvs, ORDER) {
      var ids := MovedBefore(Order(s.mem[g].tlvs), s.mem[m.value].itemId, s.mem[b.value].itemId);
      PutFrame(s, g, s.mem[g].(tlvs := SetOrder(s.mem[g].tlvs, ids)));
    }
  }

  lemma MoveBuddyFrame(s: List, from: string, to: string, name: string, before: string, start: u16)
    requires Ordered(s)
    ensures Framed(s, MoveBuddy(s, from, to, name, before, start).0)
  {
    var src := GroupByName(s, from);
    if src.Some? && BuddyItem(s, src.value, name).Some? {
      if to == "" || to == from {
        RepositionFrame(s, src.value, name, before);
      } else if GroupByName(s, to).Some? {
        MoveAcrossFrame(s, from, to, name, before, s.mem[BuddyItem(s, src.value, name).value].tlvs,
                        GroupByName(s, to).value, start);
      }
    }
  }

  lemma MoveAcrossFrame(s: List, from: string, to: string, name: string, before: string, attrs: seq<TLV>, dst: Ptr,
                        start: u16)
    requires Ordered(s) && dst in Live(s)
    ensures var added := AddBuddyItem(DeleteBuddy(s, from, name).0, to, name, attrs, start).list;
      dst < |added.mem| && Framed(s, added) && Framed(s, Reposition(added, dst, name, before))
  {
    var s1 := DeleteBuddy(s, from, name).0;
    var added := AddBuddyItem(s1, to, name, attrs, start).list;
    DeleteBuddyFrame(s, from, name);
    AddBuddyFrame(s1, to, name, attrs, start);
    FrameTrans(s, s1, added);
    RepositionFrame(added, dst, name, before);
    FrameTrans(s, added, Reposition(added, dst, name, before));
  }

  lemma OtherFrame(s: List, e: Edit, start: u16)
    requires Ordered(s) && Allowed(e) && (e.PuttingOther? || e.DeletingOther? || e.DeletingLinked?)
    ensures Framed(s, Apply(s, e, start))
  {
    OrderedKeys(s);
    if e.PuttingOther? {
      UpsertFrame(s, e.item, start);
    } else if e.DeletingOther? {
      DeleteFrame(s, e.item);
    } else {
      LinkedFrame(s, e.name);
    }
  }

  lemma LinkedFrame(s: List, name: string)
    requires Ordered(s) && KeysDistinct(Live(s), s.mem)
    ensures Framed(s, DeleteLinked(s, name))
  {
    var item := Item(name, 0, 0, ALINFO, []);
    DeleteFrame(s, item);
    var d := DeleteItem(s, item);
    if d.found.Some? {
      RootFrame(d.list);
      var Rooted(s1, root) := RootGroup(d.list);
      FrameTrans(s, d.list, s1);
      PutFrame(s1, root, s1.mem[root]);
      FrameTrans(s, s1, Track(s1, root));
    }
  }

  lemma RenameFrame(s: List, e: Edit, start: u16)
    requires Wf(s) && e.RenamingGroup?
    ensures Framed(s, Apply(s, e, start))
  {
    var g := GroupByName(s, e.oldName);
    if g.Some? { PutFrame(s, g.value, s.mem[g.value].(name := e.newName)); }
  }

  lemma CollapseFrame(s: List, e: Edit, start: u16)
    requires Wf(s) && e.CollapsingGroup?
    ensures Framed(s, Apply(s, e, start))
  {
    var g := GroupByName(s, e.name);
    if g.Some? {
      var x := s.mem[g.value];
      PutFrame(s, g.value, x.(tlvs := if e.collapsed then Set(x.tlvs, TLV(COLLAPSED, [])) else Remove(x.tlvs, COLLAPSED)));
    }
  }

  lemma EditFrame(s: List, e: Edit, start: u16)
    requires Ordered(s) && Permitted(s, e)
    ensures Framed(s, Apply(s, e, start))
  {
    if e.AddingGroup? {
      AddGroupFrame(s, e.name, start);
    } else if e.DeletingGroup? {
      DeleteGroupFrame(s, e.name);
    } else if e.RenamingGroup? {
      RenameFrame(s, e, start);
    } else if e.CollapsingGroup? {
      CollapseFrame(s, e, start);
    } else {
      BuddyEditFrame(s, e, start);
    }
  }

  lemma BuddyEditFrame(s: List, e: Edit, start: u16)
    requires Ordered(s) && Permitted(s, e)
    requires !e.AddingGroup? && !e.DeletingGroup? && !e.RenamingGroup? && !e.CollapsingGroup?
    ensures Framed(s, Apply(s, e, start))
  {
    if e.AddingBuddy? {
      AddBuddyFrame(s, e.group, e.name, Attributes(e.alias, e.note), start);
    } else if e.DeletingBuddy? {
      DeleteBuddyFrame(s, e.group, e.name);
    } else if e.MovingBuddy? {
      MoveBuddyFrame(s, e.from, e.to, e.name, e.before, start);
    } else if e.Aliasing? {
      AliasFrame(s, e.name, e.alias, 0);
    } else {
      OtherFrame(s, e, start);
    }
  }

  // ---- Keys stay apart ----

  // No live item has the key of a deleted one, and the root's key is not among the deleted.
  ghost predicate Apart(s: List) {
    LiveKeys(s) !! DeletedKeys(s) && (0, 0) !in DeletedKeys(s)
  }

  lemma FrameKeepsApart(s: List, r: List)
    requires Framed(s, r) && KeysDistinct(Live(s), s.mem) && Apart(s)
    requires forall p | p in Live(r) && |s.mem| <= p < |r.mem| && r.mem[p].Key() != (0, 0) :: OwnId(r.mem[p]) !in DeletedIds(r)
    ensures Apart(r)
  {
    forall d | d in Ptrs(r.deletes) ensures d < |s.mem| && r.mem[d].Key() != (0, 0) {
      if d in Ptrs(s.deletes) {
        assert s.mem[d].Key() in DeletedKeys(s);
      }
    }
    forall p, d | p in Live(r) && d in Ptrs(r.deletes) ensures r.mem[p].Key() != r.mem[d].Key() {
      if p < |s.mem| {
        OldKeysApart(s, r, p, d);
      } else if r.mem[p].Key() != (0, 0) {
        var i :| 0 <= i < |r.deletes| && r.deletes[i] == d;
        assert r.mem[r.deletes[i]].groupId in DeletedIds(r) && r.mem[r.deletes[i]].itemId in DeletedIds(r);
      }
    }
  }

  lemma OldKeysApart(s: List, r: List, p: Ptr, d: Ptr)
    requires Framed(s, r) && KeysDistinct(Live(s), s.mem) && Apart(s)
    requires p in Live(r) && p < |s.mem| && d in Ptrs(r.deletes) && d < |s.mem|
    ensures r.mem[p].Key() != r.mem[d].Key()
  {
    if d in Ptrs(s.deletes) {
      assert s.mem[p].Key() in LiveKeys(s) && s.mem[d].Key() in DeletedKeys(s);
    }
  }

  lemma {:induction false} RunStaysApart(s: List, es: seq<(Edit, u16)>)
    requires Ordered(s) && Apart(s) && PermittedRun(s, es) && NoReuseRun(s, es)
    ensures Apart(Run(s, es)) && RoomyRun(s, es)
    decreases |es|
  {
    if es != [] {
      var s1 := Apply(s, es[0].0, es[0].1);
      OrderedKeys(s);
      EditFrame(s, es[0].0, es[0].1);
      FrameKeepsApart(s, s1);
      EditKeepsOrder(s, es[0].0, es[0].1);
      RunStaysApart(s1, es[1..]);
    }
  }

  // From an ordered list equal to its store, after any permitted run in which no new item takes an id of a pending
  // delete: upserting the updates and then deleting the deletes makes the store equal to the list.
  lemma ReplaySucceeds(s: List, store: Store, es: seq<(Edit, u16)>)
    requires Ordered(s) && s.updates == [] && s.deletes == [] && Reflects(store, s)
    requires PermittedRun(s, es) && NoReuseRun(s, es)
    ensures Reflects(UpdatesThenDeletes(Run(s, es), store), Run(s, es))
  {
    OrderedKeys(s);
    assert DeletedKeys(s) == {};
    RunStaysApart(s, es);
    ReplayAfterRun(s, store, es);
  }
}
