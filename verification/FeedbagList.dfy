/**
 FeedbagList as it runs: a mutable list of items held by pointer, two logs of pointers, and the loops that search
 and change them. Each method is proved to make the change that FeedbagEdits describes.
 */
module FeedbagList {
  import opened Common
  import opened Tlv
  import opened FeedbagItems
  import E = FeedbagEdits
  import opened FeedbagEdits

  // ---- TLV and order loops ----

  // TLVList.Set: one pass that overwrites, and an append when nothing matched.
  method SetTlv(list: seq<TLV>, tlv: TLV) returns (r: seq<TLV>)
    ensures r == Set(list, tlv)
  {
    r := [];
    var found := false;
    var i := 0;
    while i < |list|
      invariant 0 <= i <= |list|
      invariant Overwrite(list, tlv) == r + Overwrite(list[i..], tlv)
      invariant HasTag(list, tlv.tag) <==> found || HasTag(list[i..], tlv.tag)
    {
      OverwriteStep(list, i, tlv, r);
      if list[i].tag == tlv.tag {
        r := r + [tlv];
        found := true;
      } else {
        r := r + [list[i]];
      }
      i := i + 1;
    }
    if !found {
      KeepAll(list, tlv);
      r := r + [tlv];
    }
  }

  lemma OverwriteStep(list: seq<TLV>, i: nat, tlv: TLV, r: seq<TLV>)
    requires i < |list|
    ensures r + Overwrite(list[i..], tlv)
         == r + [if list[i].tag == tlv.tag then tlv else list[i]] + Overwrite(list[i + 1..], tlv)
    ensures HasTag(list[i..], tlv.tag) <==> list[i].tag == tlv.tag || HasTag(list[i + 1..], tlv.tag)
  {
    assert list[i..][1..] == list[i + 1..];
    var x, rest := if list[i].tag == tlv.tag then tlv else list[i], Overwrite(list[i + 1..], tlv);
    assert r + ([x] + rest) == r + [x] + rest;
  }

  lemma {:induction false} KeepAll(list: seq<TLV>, tlv: TLV)
    requires !HasTag(list, tlv.tag)
    ensures Overwrite(list, tlv) == list
  {
    if list != [] {
      KeepAll(list[1..], tlv);
      assert list == [list[0]] + list[1..];
    }
  }

  // TLVList.Remove.
  method RemoveTlv(list: seq<TLV>, tag: u16) returns (r: seq<TLV>)
    ensures r == Remove(list, tag)
  {
    r := [];
    var i := 0;
    while i < |list|
      invariant 0 <= i <= |list|
      invariant Remove(list, tag) == r + Remove(list[i..], tag)
    {
      assert list[i..][1..] == list[i + 1..];
      if list[i].tag != tag { r := r + [list[i]]; }
      i := i + 1;
    }
  }

  method FilterOut(ids: seq<u16>, id: u16) returns (r: seq<u16>)
    ensures r == Without(ids, id)
  {
    r := [];
    var i := 0;
    while i < |ids|
      invariant 0 <= i <= |ids|
      invariant Without(ids, id) == r + Without(ids[i..], id)
    {
      assert ids[i..][1..] == ids[i + 1..];
      if ids[i] != id { r := r + [ids[i]]; }
      i := i + 1;
    }
  }

  lemma {:induction false} InsertAt(ids: seq<u16>, id: u16, before: u16, i: nat)
    requires i <= |ids| && before !in ids[..i] && (i < |ids| ==> ids[i] == before)
    ensures InsertBefore(ids, id, before) == ids[..i] + [id] + ids[i..]
  {
    if i == 0 {
      assert ids[..0] + [id] + ids[0..] == [id] + ids;
    } else {
      var rest := ids[1..];
      assert ids[..i] == [ids[0]] + rest[..i - 1] && ids[i..] == rest[i - 1..];
      assert ids[0] in ids[..i];
      assert before !in [ids[0]] + rest[..i - 1];
      InsertAt(rest, id, before, i - 1);
      assert [ids[0]] + (rest[..i - 1] + [id] + rest[i - 1..]) == ([ids[0]] + rest[..i - 1]) + [id] + rest[i - 1..];
    }
  }

  // One turn of the wrapping counter.
  lemma CandidateStep(start: u16, k: nat)
    requires k <= 0xFFFF
    ensures Candidate(start, k) == Below(start) <==> k == 0xFFFF
    ensures Candidate(start, k + 1) == (Candidate(start, k) + 1) % 0x1_0000
  {
  }

  lemma GroupsStep(s: E.List, i: nat, groups: seq<Ptr>)
    requires Wf(s) && i < |s.items|
    ensures groups + GroupsFrom(s, i)
         == (if s.mem[s.items[i]].IsGroup() then groups + [s.items[i]] else groups) + GroupsFrom(s, i + 1)
  {
    var rest := GroupsFrom(s, i + 1);
    assert groups + ([s.items[i]] + rest) == groups + [s.items[i]] + rest;
    assert groups + ([] + rest) == groups + rest;
  }

  lemma MembersStep(s: E.List, groupId: u16, i: nat, ps: seq<Ptr>)
    requires Wf(s) && i < |s.items|
    ensures ps + Members(s, groupId, i)
         == (if s.mem[s.items[i]].groupId == groupId then ps + [s.items[i]] else ps) + Members(s, groupId, i + 1)
  {
    var rest := Members(s, groupId, i + 1);
    assert ps + ([s.items[i]] + rest) == ps + [s.items[i]] + rest;
  }

  class List {
    var mem: seq<Item>
    var items: seq<Ptr>
    var updates: seq<Ptr>
    var deletes: seq<Ptr>

    ghost function State(): E.List
      reads this
    {
      E.List(mem, items, updates, deletes)
    }

    ghost predicate Valid()
      reads this
    {
      Wf(State())
    }

    constructor (stored: seq<Item>)
      ensures Valid() && View(State()) == stored && updates == [] && deletes == []
    {
      mem := stored;
      items := seq(|stored|, i => i);
      updates, deletes := [], [];
    }

    // The loop behind every lookup: the position of the first item that satisfies p.
    method Locate(p: Item -> bool) returns (i: nat)
      requires Valid()
      ensures i == First(View(State()), p)
    {
      i := 0;
      ghost var v := View(State());
      while i < |items|
        invariant i <= |items|
        invariant forall j :: 0 <= j < i ==> !p(v[j])
      {
        assert v[i] == mem[items[i]];
        if p(mem[items[i]]) { return; }
        i := i + 1;
      }
    }

    method Lookup(p: Item -> bool) returns (r: Option<Ptr>)
      requires Valid()
      ensures r == Find(State(), p)
    {
      var i := Locate(p);
      r := if i < |items| then Some(items[i]) else None;
    }

    method GroupByName(name: string) returns (r: Option<Ptr>)
      requires Valid()
      ensures r == E.GroupByName(State(), name)
    {
      r := Lookup((x: Item) => x.IsGroup() && x.name == name);
    }

    method BuddyItem(group: Ptr, name: string) returns (r: Option<Ptr>)
      requires Valid() && group < |mem|
      ensures r == E.BuddyItem(State(), group, name)
    {
      var gid := mem[group].groupId;
      r := Lookup((x: Item) => IsBuddyOf(x, gid, name));
    }

    method TrackUpdate(p: Ptr)
      requires Valid() && p < |mem|
      modifies this`updates
      ensures State() == Track(old(State()), p)
    {
      if p !in updates { updates := updates + [p]; }
    }

    // The inner loop of genID: whether an item has the id as its group or item id.
    method InUse(id: u16) returns (used: bool)
      requires Valid()
      ensures used == Used(View(State()), id)
    {
      ghost var v := View(State());
      used := false;
      var i := 0;
      while i < |items| && !used
        invariant 0 <= i <= |items|
        invariant used ==> Used(v, id)
        invariant !used ==> forall j :: 0 <= j < i ==> v[j].groupId != id && v[j].itemId != id
      {
        assert v[i] == mem[items[i]];
        used := mem[items[i]].groupId == id || mem[items[i]].itemId == id;
        i := i + 1;
      }
    }

    // genID: the counter wraps at 16 bits and stops just below where it started.
    method GenId(start: u16) returns (id: u16)
      requires Valid()
      ensures id == FeedbagItems.GenId(View(State()), start)
    {
      ghost var k, v := 0, View(State());
      id := start;
      while id != Below(start)
        invariant 0 <= k <= 0xFFFF && id == Candidate(start, k)
        invariant GenIdFrom(v, start, 0) == GenIdFrom(v, start, k)
        decreases 0xFFFF - k
      {
        CandidateStep(start, k);
        if id != 0 {
          var used := InUse(id);
          if !used { return; }
        }
        id := (id + 1) % 0x1_0000;
        k := k + 1;
      }
      CandidateStep(start, k);
      id := 0;
    }

    method UpsertItem(item: Item, start: u16) returns (ptr: Ptr, inserted: bool)
      requires Valid()
      modifies this
      ensures var up := E.UpsertItem(old(State()), item, start);
              State() == up.list && ptr == up.ptr && inserted == up.inserted
    {
      var it := Stored(item);
      var found := Lookup((x: Item) => Matches(x, it));
      assert found == FindMatch(State(), it);
      if found.Some? {
        ptr, inserted := found.value, false;
        var x := mem[ptr];
        if !SameContent(x, it) {
          mem := mem[ptr := it.(itemId := x.itemId, groupId := x.groupId)];
          TrackUpdate(ptr);
        }
        return;
      }
      var id := GenId(start);
      ptr, inserted := |mem|, true;
      mem := mem + [it.(itemId := id)];
      items := items + [ptr];
      updates := updates + [ptr];
    }

    method DeleteItem(item: Item) returns (found: Option<Ptr>)
      requires Valid()
      modifies this`items, this`deletes
      ensures State() == E.DeleteItem(old(State()), item).list && found == E.DeleteItem(old(State()), item).found
    {
      var i := Locate((x: Item) => Matches(x, item));
      assert i == FirstMatch(State(), item);
      if i == |items| { return None; }
      found := Some(items[i]);
      deletes := deletes + [items[i]];
      items := items[..i] + items[i + 1..];
    }

    method RootGroup() returns (root: Ptr)
      requires Valid()
      modifies this
      ensures State() == E.RootGroup(old(State())).list && root == E.RootGroup(old(State())).root
    {
      var found := Lookup((x: Item) => x.IsRoot());
      assert found == FindRoot(State());
      if found.Some? { return found.value; }
      root := |mem|;
      mem := mem + [NEW_ROOT];
      items := items + [root];
      TrackUpdate(root);
    }

    method AppendOrderMember(p: Ptr, id: u16)
      requires Valid() && p < |mem|
      modifies this`mem
      ensures State() == Put(old(State()), p, AppendMember(old(mem[p]), id))
    {
      var tlvs := SetTlv(mem[p].tlvs, TLV(ORDER, EncodeIds(Order(mem[p].tlvs) + [id])));
      mem := mem[p := mem[p].(tlvs := tlvs)];
    }

    method RemoveOrderMember(p: Ptr, id: u16)
      requires Valid() && p < |mem|
      modifies this`mem
      ensures State() == Put(old(State()), p, RemoveMember(old(mem[p]), id))
    {
      if !HasTag(mem[p].tlvs, ORDER) { return; }
      var filtered := FilterOut(Order(mem[p].tlvs), id);
      var tlvs := SetTlv(mem[p].tlvs, TLV(ORDER, EncodeIds(filtered)));
      mem := mem[p := mem[p].(tlvs := tlvs)];
    }

    method AddGroup(name: string, start: u16)
      requires Valid()
      modifies this
      ensures State() == E.AddGroup(old(State()), name, start) && Valid()
    {
      var found := GroupByName(name);
      if found.Some? { return; }
      var id := GenId(start);
      var group := |mem|;
      mem := mem + [Item(name, id, 0, GROUP, [])];
      items := items + [group];
      var root := RootGroup();
      AppendOrderMember(root, id);
      TrackUpdate(root);
      TrackUpdate(group);
    }

    // The items to delete are gathered before the first one goes.
    method Gather(groupId: u16) returns (toDelete: seq<Ptr>)
      requires Valid()
      ensures toDelete == Members(State(), groupId, 0)
    {
      toDelete := [];
      var i := 0;
      while i < |items|
        invariant 0 <= i <= |items|
        invariant Members(State(), groupId, 0) == toDelete + Members(State(), groupId, i)
      {
        MembersStep(State(), groupId, i, toDelete);
        if mem[items[i]].groupId == groupId { toDelete := toDelete + [items[i]]; }
        i := i + 1;
      }
    }

    method DeleteEach(ps: seq<Ptr>)
      requires Valid() && forall i :: 0 <= i < |ps| ==> ps[i] < |mem|
      modifies this`items, this`deletes
      ensures State() == DeleteAll(old(State()), ps)
    {
      ghost var goal := DeleteAll(State(), ps);
      var i := 0;
      assert ps[0..] == ps;
      while i < |ps|
        invariant 0 <= i <= |ps| && Valid()
        invariant DeleteAll(State(), ps[i..]) == goal
      {
        assert ps[i..][1..] == ps[i + 1..];
        var _ := DeleteItem(mem[ps[i]]);
        i := i + 1;
      }
    }

    method Unroot(groupId: u16)
      requires Valid()
      modifies this`mem, this`updates
      ensures State() == RemoveFromRoots(old(State()), groupId, 0)
    {
      ghost var goal := RemoveFromRoots(State(), groupId, 0);
      var i := 0;
      while i < |items|
        invariant 0 <= i <= |items| && Valid()
        invariant RemoveFromRoots(State(), groupId, i) == goal
      {
        if mem[items[i]].IsRoot() {
          RemoveOrderMember(items[i], groupId);
          TrackUpdate(items[i]);
        }
        i := i + 1;
      }
    }

    method DeleteGroup(name: string)
      requires Valid()
      modifies this
      ensures State() == E.DeleteGroup(old(State()), name) && Valid()
    {
      var found := GroupByName(name);
      if found.None? { return; }
      var gid := mem[found.value].groupId;
      var toDelete := Gather(gid);
      DeleteEach(toDelete);
      Unroot(gid);
    }

    method RenameGroup(oldName: string, newName: string) returns (err: Option<EditError>)
      requires Valid()
      modifies this
      ensures (State(), err) == E.RenameGroup(old(State()), oldName, newName) && Valid()
    {
      var found := GroupByName(oldName);
      if found.None? { return Some(GroupNotFound); }
      if newName != oldName {
        var other := GroupByName(newName);
        if other.Some? { return Some(GroupExists); }
      }
      var g := found.value;
      if mem[g].name == newName { return None; }
      mem := mem[g := mem[g].(name := newName)];
      TrackUpdate(g);
      return None;
    }

    method SetGroupCollapsed(name: string, collapsed: bool) returns (err: Option<EditError>)
      requires Valid()
      modifies this
      ensures (State(), err) == E.SetGroupCollapsed(old(State()), name, collapsed) && Valid()
    {
      var found := GroupByName(name);
      if found.None? { return Some(GroupNotFound); }
      var g := found.value;
      var tlvs;
      if collapsed {
        tlvs := SetTlv(mem[g].tlvs, TLV(COLLAPSED, []));
      } else {
        tlvs := RemoveTlv(mem[g].tlvs, COLLAPSED);
      }
      mem := mem[g := mem[g].(tlvs := tlvs)];
      TrackUpdate(g);
      return None;
    }

    method AddBuddyItem(groupName: string, name: string, attrs: seq<TLV>, start: u16)
      returns (inserted: bool, err: Option<EditError>)
      requires Valid()
      modifies this
      ensures var a := E.AddBuddyItem(old(State()), groupName, name, attrs, start);
              State() == a.list && inserted == a.inserted && err == a.err && Valid()
    {
      var found := GroupByName(groupName);
      if found.None? { return false, Some(GroupNotFound); }
      var g := found.value;
      var ptr;
      ptr, inserted := UpsertItem(Item(name, mem[g].groupId, 0, BUDDY, attrs), start);
      if inserted {
        AppendOrderMember(g, mem[ptr].itemId);
        TrackUpdate(g);
      }
      err := None;
    }

    method AddBuddy(groupName: string, name: string, alias: seq<byte>, note: seq<byte>, start: u16)
      returns (inserted: bool, err: Option<EditError>)
      requires Valid()
      modifies this
      ensures var a := E.AddBuddy(old(State()), groupName, name, alias, note, start);
              State() == a.list && inserted == a.inserted && err == a.err && Valid()
    {
      var attrs := [];
      if alias != [] { attrs := attrs + [TLV(ALIAS, alias)]; }
      if note != [] { attrs := attrs + [TLV(NOTE, note)]; }
      assert attrs == Attributes(alias, note);
      inserted, err := AddBuddyItem(groupName, name, attrs, start);
    }

    method DeleteFrom(g: Ptr, name: string)
      requires Valid() && g < |mem|
      modifies this
      ensures State() == E.DeleteFrom(old(State()), g, name) && Valid() && |mem| == old(|mem|)
    {
      var found := DeleteItem(Item(name, mem[g].groupId, 0, BUDDY, []));
      if found.Some? {
        RemoveOrderMember(g, mem[found.value].itemId);
        TrackUpdate(g);
      }
    }

    method AllGroups() returns (groups: seq<Ptr>)
      requires Valid()
      ensures groups == GroupsFrom(State(), 0)
    {
      groups := [];
      var i := 0;
      while i < |items|
        invariant 0 <= i <= |items|
        invariant GroupsFrom(State(), 0) == groups + GroupsFrom(State(), i)
      {
        GroupsStep(State(), i, groups);
        if mem[items[i]].IsGroup() { groups := groups + [items[i]]; }
        i := i + 1;
      }
    }

    method DeleteFromEach(groups: seq<Ptr>, name: string)
      requires Valid() && forall i :: 0 <= i < |groups| ==> groups[i] < |mem|
      modifies this
      ensures State() == DeleteFromAll(old(State()), groups, name)
    {
      ghost var goal := DeleteFromAll(State(), groups, name);
      assert groups[0..] == groups;
      var i := 0;
      while i < |groups|
        invariant 0 <= i <= |groups| && Valid() && |mem| == old(|mem|)
        invariant DeleteFromAll(State(), groups[i..], name) == goal
      {
        DeleteFromNext(State(), groups, i, name);
        DeleteFrom(groups[i], name);
        i := i + 1;
      }
      DeleteFromNone(State(), groups[i..], name);
    }

    method DeleteBuddy(groupName: string, name: string) returns (err: Option<EditError>)
      requires Valid()
      modifies this
      ensures (State(), err) == E.DeleteBuddy(old(State()), groupName, name) && Valid() && |mem| == old(|mem|)
    {
      var groups;
      if groupName == EVERYWHERE {
        groups := AllGroups();
      } else {
        var found := GroupByName(groupName);
        if found.None? { return Some(GroupNotFound); }
        groups := [found.value];
        DeleteFromOne(State(), found.value, name);
      }
      DeleteFromEach(groups, name);
      return None;
    }

    // reorderInGroupOrder.
    method ReorderInGroup(g: Ptr, id: u16, before: u16)
      requires Valid() && g < |mem|
      modifies this
      ensures State() == Reorder(old(State()), g, id, before) && Valid()
    {
      if !HasTag(mem[g].tlvs, ORDER) { return; }
      var filtered := FilterOut(Order(mem[g].tlvs), id);
      var at := 0;
      while at < |filtered| && filtered[at] != before
        invariant 0 <= at <= |filtered|
        invariant before !in filtered[..at]
      {
        at := at + 1;
      }
      InsertAt(filtered, id, before, at);
      var tlvs := SetTlv(mem[g].tlvs, TLV(ORDER, EncodeIds(filtered[..at] + [id] + filtered[at..])));
      mem := mem[g := mem[g].(tlvs := tlvs)];
      TrackUpdate(g);
    }

    method Reposition(g: Ptr, name: string, before: string)
      requires Valid() && g < |mem|
      modifies this
      ensures State() == E.Reposition(old(State()), g, name, before) && Valid()
    {
      if before == "" { return; }
      var moved := BuddyItem(g, name);
      var b := BuddyItem(g, before);
      if moved.Some? && b.Some? { ReorderInGroup(g, mem[moved.value].itemId, mem[b.value].itemId); }
    }

    method MoveBuddy(from: string, to: string, name: string, before: string, start: u16)
      returns (err: Option<EditError>)
      requires Valid()
      modifies this
      ensures (State(), err) == E.MoveBuddy(old(State()), from, to, name, before, start) && Valid()
    {
      var src := GroupByName(from);
      if src.None? { return Some(GroupNotFound); }
      var b := BuddyItem(src.value, name);
      if b.None? { return Some(BuddyNotFound); }
      var dst := src;
      if to != "" && to != from {
        dst := GroupByName(to);
        if dst.None? { return Some(GroupNotFound); }
        var attrs := mem[b.value].tlvs;
        var e := DeleteBuddy(from, name);
        var inserted;
        inserted, err := AddBuddyItem(to, name, attrs, start);
        if err.Some? { return; }
      }
      Reposition(dst.value, name, before);
      return None;
    }

    // buddyItemsByName, of which SetBuddyAlias asks whether there is any.
    method AnyBuddy(name: string) returns (found: bool)
      requires Valid()
      ensures found <==> exists p :: p in items && mem[p].classId == BUDDY && Ident(mem[p].name) == Ident(name)
    {
      var i := Locate((x: Item) => x.classId == BUDDY && Ident(x.name) == Ident(name));
      found := i < |items|;
      assert forall j :: 0 <= j < |items| ==> View(State())[j] == mem[items[j]];
      if found { assert items[i] in items; }
    }

    method SetBuddyAlias(name: string, alias: seq<byte>) returns (found: bool)
      requires Valid()
      modifies this
      ensures State() == AliasFrom(old(State()), name, alias, 0) && Valid()
      ensures found <==>
                exists p :: p in old(items) && old(mem)[p].classId == BUDDY && Ident(old(mem)[p].name) == Ident(name)
    {
      found := AnyBuddy(name);
      ghost var goal := AliasFrom(State(), name, alias, 0);
      var i := 0;
      while i < |items|
        invariant 0 <= i <= |items| && Valid()
        invariant AliasFrom(State(), name, alias, i) == goal
      {
        AliasNext(State(), name, alias, i);
        AliasAt(items[i], name, alias);
        i := i + 1;
      }
    }

    // The body of its loop.
    method AliasAt(p: Ptr, name: string, alias: seq<byte>)
      requires Valid() && p < |mem|
      modifies this
      ensures State() == AliasItem(old(State()), p, name, alias) && Valid()
    {
      if mem[p].classId == BUDDY && Ident(mem[p].name) == Ident(name) {
        ghost var s0 := State();
        var tlvs;
        if alias != [] {
          tlvs := SetTlv(mem[p].tlvs, TLV(ALIAS, alias));
        } else {
          tlvs := RemoveTlv(mem[p].tlvs, ALIAS);
        }
        mem := mem[p := mem[p].(tlvs := tlvs)];
        assert State() == Put(s0, p, s0.mem[p].(tlvs := tlvs));
        TrackUpdate(p);
      }
    }

    method DeleteLinkedScreenName(name: string)
      requires Valid()
      modifies this
      ensures State() == DeleteLinked(old(State()), name) && Valid()
    {
      var found := DeleteItem(Item(name, 0, 0, ALINFO, []));
      if found.Some? {
        var root := RootGroup();
        TrackUpdate(root);
      }
    }
  }

  lemma AliasNext(s: E.List, name: string, alias: seq<byte>, i: nat)
    requires Wf(s) && i < |s.items|
    ensures AliasFrom(s, name, alias, i) == AliasFrom(AliasItem(s, s.items[i], name, alias), name, alias, i + 1)
  {
  }

  lemma DeleteFromNext(s: E.List, gs: seq<Ptr>, i: nat, name: string)
    requires Wf(s) && i < |gs| && forall j :: 0 <= j < |gs| ==> gs[j] < |s.mem|
    ensures DeleteFromAll(s, gs[i..], name) == DeleteFromAll(E.DeleteFrom(s, gs[i], name), gs[i + 1..], name)
  {
    assert gs[i..][0] == gs[i] && gs[i..][1..] == gs[i + 1..];
  }

  lemma DeleteFromNone(s: E.List, gs: seq<Ptr>, name: string)
    requires Wf(s) && gs == []
    ensures DeleteFromAll(s, gs, name) == s
  {
  }

  lemma DeleteFromOne(s: E.List, g: Ptr, name: string)
    requires Wf(s) && g < |s.mem|
    ensures DeleteFromAll(s, [g], name) == E.DeleteFrom(s, g, name)
  {
    var s1 := E.DeleteFrom(s, g, name);
    assert [g][1..] == [];
    assert DeleteFromAll(s1, [], name) == s1;
  }
}
