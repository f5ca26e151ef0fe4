/**
 What each FeedbagList call does to the list and to its two pending logs. Items live in a memory and are held by
 pointer, so the logs and the list see each other's later changes.
 */
module FeedbagEdits {
  import opened Common
  import opened Tlv
  import opened FeedbagItems

  type Ptr = nat

  datatype List = List(mem: seq<Item>, items: seq<Ptr>, updates: seq<Ptr>, deletes: seq<Ptr>)

  datatype EditError = GroupNotFound | GroupExists | BuddyNotFound

  const ALIAS: u16 := 0x0131
  const NOTE: u16 := 0x013C
  const COLLAPSED: u16 := 0x0134
  const EVERYWHERE := "*"

  predicate Wf(s: List) {
    && (forall i :: 0 <= i < |s.items| ==> s.items[i] < |s.mem|)
    && (forall i :: 0 <= i < |s.updates| ==> s.updates[i] < |s.mem|)
    && (forall i :: 0 <= i < |s.deletes| ==> s.deletes[i] < |s.mem|)
    && (forall i, j :: 0 <= i < j < |s.items| ==> s.items[i] != s.items[j])
  }

  // The items in list order.
  function View(s: List): (v: seq<Item>)
    requires Wf(s)
    ensures |v| == |s.items|
  {
    seq(|s.items|, i requires 0 <= i < |s.items| => s.mem[s.items[i]])
  }

  // ---- The four primitive changes ----

  function Append(s: List, x: Item): (r: List)
    requires Wf(s)
    ensures Wf(r)
  {
    s.(mem := s.mem + [x], items := s.items + [|s.mem|])
  }

  function Put(s: List, p: Ptr, x: Item): (r: List)
    requires Wf(s) && p < |s.mem|
    ensures Wf(r)
  {
    s.(mem := s.mem[p := x])
  }

  function Track(s: List, p: Ptr): (r: List)
    requires Wf(s) && p < |s.mem|
    ensures Wf(r)
  {
    if p in s.updates then s else s.(updates := s.updates + [p])
  }

  function Drop(s: List, i: nat): (r: List)
    requires Wf(s) && i < |s.items|
    ensures Wf(r)
  {
    s.(items := s.items[..i] + s.items[i + 1..], deletes := s.deletes + [s.items[i]])
  }

  // ---- Lookups ----

  function Find(s: List, p: Item -> bool): (r: Option<Ptr>)
    requires Wf(s)
    ensures r.Some? ==> r.value in s.items && p(s.mem[r.value])
    ensures r.None? ==> forall q <- s.items :: !p(s.mem[q])
  {
    var i := First(View(s), p);
    if i < |s.items| then assert View(s)[i] == s.mem[s.items[i]]; Some(s.items[i])
    else
      assert forall j :: 0 <= j < |s.items| ==> View(s)[j] == s.mem[s.items[j]] && !p(View(s)[j]);
      None
  }

  function GroupByName(s: List, name: string): Option<Ptr>
    requires Wf(s)
  {
    Find(s, (x: Item) => x.IsGroup() && x.name == name)
  }

  function FindRoot(s: List): Option<Ptr>
    requires Wf(s)
  {
    Find(s, (x: Item) => x.IsRoot())
  }

  // The item that an upsert means, and the list position of the one that a delete means.
  function FindMatch(s: List, item: Item): Option<Ptr>
    requires Wf(s)
  {
    Find(s, (x: Item) => Matches(x, item))
  }

  function FirstMatch(s: List, item: Item): nat
    requires Wf(s)
  {
    First(View(s), (x: Item) => Matches(x, item))
  }

  predicate IsBuddyOf(x: Item, groupId: u16, name: string) {
    x.classId == BUDDY && x.groupId == groupId && Ident(x.name) == Ident(name)
  }

  function BuddyItem(s: List, group: Ptr, name: string): Option<Ptr>
    requires Wf(s) && group < |s.mem|
  {
    var gid := s.mem[group].groupId;
    Find(s, (x: Item) => IsBuddyOf(x, gid, name))
  }

  // ---- Order attributes ----

  function AppendMember(x: Item, id: u16): Item {
    x.(tlvs := SetOrder(x.tlvs, Order(x.tlvs) + [id]))
  }

  function RemoveMember(x: Item, id: u16): Item {
    if HasTag(x.tlvs, ORDER) then x.(tlvs := SetOrder(x.tlvs, Without(Order(x.tlvs), id))) else x
  }

  // ---- Upsert and delete ----

  datatype Upserted = Upserted(list: List, ptr: Ptr, inserted: bool)

  function UpsertItem(s: List, item: Item, start: u16): (r: Upserted)
    requires Wf(s)
    ensures Wf(r.list) && r.ptr < |r.list.mem| && |s.mem| <= |r.list.mem|
  {
    var it := Stored(item);
    match FindMatch(s, it)
    case Some(p) =>
      var x := s.mem[p];
      if SameContent(x, it) then Upserted(s, p, false)
      else Upserted(Track(Put(s, p, it.(itemId := x.itemId, groupId := x.groupId)), p), p, false)
    case None =>
      var s' := Append(s, it.(itemId := GenId(View(s), start)));
      Upserted(s'.(updates := s'.updates + [|s.mem|]), |s.mem|, true)
  }

  datatype Deleted = Deleted(list: List, found: Option<Ptr>)

  function DeleteItem(s: List, item: Item): (r: Deleted)
    requires Wf(s)
    ensures Wf(r.list) && r.list.mem == s.mem
    ensures r.found.Some? ==> r.found.value in s.items && Matches(s.mem[r.found.value], item)
  {
    var i := FirstMatch(s, item);
    if i < |s.items| then assert View(s)[i] == s.mem[s.items[i]]; Deleted(Drop(s, i), Some(s.items[i]))
    else Deleted(s, None)
  }

  // ---- Groups ----

  datatype Rooted = Rooted(list: List, root: Ptr)

  const NEW_ROOT := Item("", 0, 0, GROUP, [])

  function RootGroup(s: List): (r: Rooted)
    requires Wf(s)
    ensures Wf(r.list) && r.root in r.list.items
    ensures s.mem <= r.list.mem
  {
    match FindRoot(s)
    case Some(p) => Rooted(s, p)
    case None => Rooted(Track(Append(s, NEW_ROOT), |s.mem|), |s.mem|)
  }

  function AddGroup(s: List, name: string, start: u16): (r: List)
    requires Wf(s)
    ensures Wf(r)
  {
    if GroupByName(s, name).Some? then s
    else EnrollGroup(s, Item(name, GenId(View(s), start), 0, GROUP, []))
  }

  // A new group item joins the list and then the order of the root, which is created if need be.
  function EnrollGroup(s: List, group: Item): (r: List)
    requires Wf(s)
    ensures Wf(r)
  {
    var Rooted(s1, root) := RootGroup(Append(s, group));
    Track(Track(Put(s1, root, AppendMember(s1.mem[root], group.groupId)), root), |s.mem|)
  }

  // The pointers of the items in a group, the group item included.
  function Members(s: List, groupId: u16, i: nat): (ps: seq<Ptr>)
    requires Wf(s) && i <= |s.items|
    ensures forall p :: p in ps <==> p in s.items[i..] && s.mem[p].groupId == groupId
    ensures forall j, k :: 0 <= j < k < |ps| ==> ps[j] != ps[k]
    ensures forall j :: 0 <= j < |ps| ==> ps[j] < |s.mem|
    decreases |s.items| - i
  {
    if i == |s.items| then []
    else
      assert s.items[i..] == [s.items[i]] + s.items[i + 1..];
      var rest := Members(s, groupId, i + 1);
      assert s.items[i] !in s.items[i + 1..];
      assert forall j :: 0 <= j < |rest| ==> rest[j] in rest;
      if s.mem[s.items[i]].groupId == groupId then [s.items[i]] + rest else rest
  }

  function DeleteAll(s: List, ps: seq<Ptr>): (r: List)
    requires Wf(s) && forall i :: 0 <= i < |ps| ==> ps[i] < |s.mem|
    ensures Wf(r) && r.mem == s.mem
    decreases |ps|
  {
    if ps == [] then s else DeleteAll(DeleteItem(s, s.mem[ps[0]]).list, ps[1..])
  }

  // Takes a group id out of the order of every root item from the i-th on.
  function RemoveFromRoots(s: List, groupId: u16, i: nat): (r: List)
    requires Wf(s) && i <= |s.items|
    ensures Wf(r)
    decreases |s.items| - i
  {
    if i == |s.items| then s
    else
      var p := s.items[i];
      if s.mem[p].IsRoot() then
        RemoveFromRoots(Track(Put(s, p, RemoveMember(s.mem[p], groupId)), p), groupId, i + 1)
      else RemoveFromRoots(s, groupId, i + 1)
  }

  function DeleteGroup(s: List, name: string): (r: List)
    requires Wf(s)
    ensures Wf(r)
  {
    match GroupByName(s, name)
    case None => s
    case Some(g) =>
      var gid := s.mem[g].groupId;
      assert s.items[0..] == s.items;
      RemoveFromRoots(DeleteAll(s, Members(s, gid, 0)), gid, 0)
  }

  function RenameGroup(s: List, oldName: string, newName: string): (r: (List, Option<EditError>))
    requires Wf(s)
    ensures Wf(r.0)
  {
    match GroupByName(s, oldName)
    case None => (s, Some(GroupNotFound))
    case Some(g) =>
      if newName != oldName && GroupByName(s, newName).Some? then (s, Some(GroupExists))
      else if s.mem[g].name == newName then (s, None)
      else (Track(Put(s, g, s.mem[g].(name := newName)), g), None)
  }

  function SetGroupCollapsed(s: List, name: string, collapsed: bool): (r: (List, Option<EditError>))
    requires Wf(s)
    ensures Wf(r.0)
  {
    match GroupByName(s, name)
    case None => (s, Some(GroupNotFound))
    case Some(g) =>
      var x := s.mem[g];
      var tlvs := if collapsed then Set(x.tlvs, TLV(COLLAPSED, [])) else Remove(x.tlvs, COLLAPSED);
      (Track(Put(s, g, x.(tlvs := tlvs)), g), None)
  }

  // ---- Buddies ----

  // The attributes AddBuddy gives a buddy: an alias and a note when they are not empty.
  function Attributes(alias: seq<byte>, note: seq<byte>): seq<TLV> {
    (if alias != [] then [TLV(ALIAS, alias)] else []) + (if note != [] then [TLV(NOTE, note)] else [])
  }

  datatype Added = Added(list: List, inserted: bool, err: Option<EditError>)

  function AddBuddyItem(s: List, groupName: string, name: string, attrs: seq<TLV>, start: u16): (r: Added)
    requires Wf(s)
    ensures Wf(r.list) && |s.mem| <= |r.list.mem|
  {
    match GroupByName(s, groupName)
    case None => Added(s, false, Some(GroupNotFound))
    case Some(g) =>
      var up := UpsertItem(s, Item(name, s.mem[g].groupId, 0, BUDDY, attrs), start);
      if !up.inserted then Added(up.list, false, None)
      else
        var s1 := up.list;
        Added(Track(Put(s1, g, AppendMember(s1.mem[g], s1.mem[up.ptr].itemId)), g), true, None)
  }

  function AddBuddy(s: List, groupName: string, name: string, alias: seq<byte>, note: seq<byte>, start: u16): (r: Added)
    requires Wf(s)
    ensures Wf(r.list)
  {
    AddBuddyItem(s, groupName, name, Attributes(alias, note), start)
  }

  // Removes the buddy from one group.
  function DeleteFrom(s: List, g: Ptr, name: string): (r: List)
    requires Wf(s) && g < |s.mem|
    ensures Wf(r) && |r.mem| == |s.mem|
  {
    var d := DeleteItem(s, Item(name, s.mem[g].groupId, 0, BUDDY, []));
    match d.found
    case None => s
    case Some(b) => Track(Put(d.list, g, RemoveMember(s.mem[g], s.mem[b].itemId)), g)
  }

  function DeleteFromAll(s: List, gs: seq<Ptr>, name: string): (r: List)
    requires Wf(s) && forall i :: 0 <= i < |gs| ==> gs[i] < |s.mem|
    ensures Wf(r) && |r.mem| == |s.mem|
    decreases |gs|
  {
    if gs == [] then s else DeleteFromAll(DeleteFrom(s, gs[0], name), gs[1..], name)
  }

  // The pointers of the non-root groups from the i-th item on.
  function GroupsFrom(s: List, i: nat): (gs: seq<Ptr>)
    requires Wf(s) && i <= |s.items|
    ensures forall j :: 0 <= j < |gs| ==> gs[j] in s.items && s.mem[gs[j]].IsGroup()
    ensures forall j :: 0 <= j < |gs| ==> gs[j] < |s.mem|
    ensures forall p <- s.items[i..] :: s.mem[p].IsGroup() ==> p in gs
    decreases |s.items| - i
  {
    if i == |s.items| then []
    else
      assert s.items[i..] == [s.items[i]] + s.items[i + 1..];
      (if s.mem[s.items[i]].IsGroup() then [s.items[i]] else []) + GroupsFrom(s, i + 1)
  }

  function DeleteBuddy(s: List, groupName: string, name: string): (r: (List, Option<EditError>))
    requires Wf(s)
    ensures Wf(r.0) && |r.0.mem| == |s.mem|
  {
    if groupName == EVERYWHERE then (DeleteFromAll(s, GroupsFrom(s, 0), name), None)
    else
      match GroupByName(s, groupName)
      case None => (s, Some(GroupNotFound))
      case Some(g) => (DeleteFrom(s, g, name), None)
  }

  function Reorder(s: List, g: Ptr, id: u16, before: u16): (r: List)
    requires Wf(s) && g < |s.mem|
    ensures Wf(r)
  {
    var x := s.mem[g];
    if !HasTag(x.tlvs, ORDER) then s
    else Track(Put(s, g, x.(tlvs := SetOrder(x.tlvs, MovedBefore(Order(x.tlvs), id, before)))), g)
  }

  function Reposition(s: List, g: Ptr, name: string, before: string): (r: List)
    requires Wf(s) && g < |s.mem|
    ensures Wf(r)
  {
    if before == "" then s
    else
      match (BuddyItem(s, g, name), BuddyItem(s, g, before))
      case (Some(m), Some(b)) => Reorder(s, g, s.mem[m].itemId, s.mem[b].itemId)
      case _ => s
  }

  function MoveBuddy(s: List, from: string, to: string, name: string, before: string, start: u16)
    : (r: (List, Option<EditError>))
    requires Wf(s)
    ensures Wf(r.0)
  {
    match GroupByName(s, from)
    case None => (s, Some(GroupNotFound))
    case Some(src) =>
      match BuddyItem(s, src, name)
      case None => (s, Some(BuddyNotFound))
      case Some(b) =>
        if to == "" || to == from then (Reposition(s, src, name, before), None)
        else
          match GroupByName(s, to)
          case None => (s, Some(GroupNotFound))
          case Some(dst) =>
            var s1 := DeleteBuddy(s, from, name).0;
            var added := AddBuddyItem(s1, to, name, s.mem[b].tlvs, start);
            if added.err.Some? then (added.list, added.err)
            else (Reposition(added.list, dst, name, before), None)
  }

  // Sets or clears the alias of an item that is a buddy of that name.
  function AliasItem(s: List, p: Ptr, name: string, alias: seq<byte>): (r: List)
    requires Wf(s) && p < |s.mem|
    ensures Wf(r) && r.items == s.items && |r.mem| == |s.mem|
  {
    var x := s.mem[p];
    if x.classId != BUDDY || Ident(x.name) != Ident(name) then s
    else
      var tlvs := if alias != [] then Set(x.tlvs, TLV(ALIAS, alias)) else Remove(x.tlvs, ALIAS);
      Track(Put(s, p, x.(tlvs := tlvs)), p)
  }

  // The same for every item from the i-th one on.
  function AliasFrom(s: List, name: string, alias: seq<byte>, i: nat): (r: List)
    requires Wf(s) && i <= |s.items|
    ensures Wf(r)
    decreases |s.items| - i
  {
    if i == |s.items| then s else AliasFrom(AliasItem(s, s.items[i], name, alias), name, alias, i + 1)
  }

  // ---- Items outside the groups: permit, deny, privacy mode, icon and linked-account entries ----

  predicate Ungrouped(item: Item) {
    item.groupId == 0 && item.classId != BUDDY && item.classId != GROUP && item.classId != MIN
  }

  function DeleteLinked(s: List, name: string): (r: List)
    requires Wf(s)
    ensures Wf(r)
  {
    var d := DeleteItem(s, Item(name, 0, 0, ALINFO, []));
    if d.found.None? then s
    else
      var Rooted(s1, root) := RootGroup(d.list);
      Track(s1, root)
  }

  // ---- Runs of edits ----

  datatype Edit =
    | AddingGroup(name: string)
    | DeletingGroup(name: string)
    | RenamingGroup(oldName: string, newName: string)
    | CollapsingGroup(name: string, collapsed: bool)
    | AddingBuddy(group: string, name: string, alias: seq<byte>, note: seq<byte>)
    | DeletingBuddy(group: string, name: string)
    | MovingBuddy(from: string, to: string, name: string, before: string)
    | Aliasing(name: string, alias: seq<byte>)
    | PuttingOther(item: Item)
    | DeletingOther(item: Item)
    | DeletingLinked(name: string)

  predicate Allowed(e: Edit) {
    match e
    case PuttingOther(item) => Ungrouped(item)
    case DeletingOther(item) => Ungrouped(item)
    case _ => true
  }

  // One edit, with the random start that its id allocation, if any, draws.
  function Apply(s: List, e: Edit, start: u16): (r: List)
    requires Wf(s)
    ensures Wf(r)
  {
    match e
    case AddingGroup(name) => AddGroup(s, name, start)
    case DeletingGroup(name) => DeleteGroup(s, name)
    case RenamingGroup(o, n) => RenameGroup(s, o, n).0
    case CollapsingGroup(name, c) => SetGroupCollapsed(s, name, c).0
    case AddingBuddy(g, n, alias, note) => AddBuddy(s, g, n, alias, note, start).list
    case DeletingBuddy(g, n) => DeleteBuddy(s, g, n).0
    case MovingBuddy(from, to, n, before) => MoveBuddy(s, from, to, n, before, start).0
    case Aliasing(n, alias) => AliasFrom(s, n, alias, 0)
    case PuttingOther(item) => UpsertItem(s, item, start).list
    case DeletingOther(item) => DeleteItem(s, item).list
    case DeletingLinked(n) => DeleteLinked(s, n)
  }

  // Enough room for genID to succeed.
  predicate Room(s: List) { |s.items| <= 32766 }
}
