/**
 What a user sees of the buddy list: which groups there are and who is in them. Each edit changes just that, in the
 way its name says, whatever it does to ids, attributes and logs.
 */
module FeedbagRoster {
  import opened Common
  import opened Tlv
  import opened FeedbagItems
  import opened FeedbagEdits
  import opened FeedbagOrder
  import opened FeedbagRuns
  import opened FeedbagDeletion

  // A group under its name, or a buddy under its normalized name in the group of that id.
  datatype Card = Group(gid: u16, name: string) | Buddy(gid: u16, name: string)

  type Cards = set<Card>

  predicate Shown(x: Item) { x.IsGroup() || x.classId == BUDDY }

  function CardOf(x: Item): Card {
    if x.classId == BUDDY then Buddy(x.groupId, x.name) else Group(x.groupId, x.name)
  }

  ghost function CardsIn(live: set<Ptr>, mem: seq<Item>): Cards {
    set p | p in live && p < |mem| && Shown(mem[p]) :: CardOf(mem[p])
  }

  ghost function Roster(s: List): Cards { CardsIn(Live(s), s.mem) }

  // ---- What each edit means ----

  predicate HasGroup(cs: Cards, name: string) {
    exists c :: c in cs && c.Group? && c.name == name
  }

  // The buddy of that name in each group of that name, of which an ordered list has at most one.
  function In(cs: Cards, group: string, name: string): Cards {
    set c | c in cs && c.Group? && c.name == group :: Buddy(c.gid, Ident(name))
  }

  predicate HasBuddy(cs: Cards, group: string, name: string) {
    exists c :: c in cs && c in In(cs, group, name)
  }

  function Less(cs: Cards, group: string, name: string): Cards {
    if group == EVERYWHERE then set c | c in cs && !(c.Buddy? && c.name == Ident(name))
    else cs - In(cs, group, name)
  }

  function LessGroup(cs: Cards, name: string): Cards {
    set c | c in cs && Group(c.gid, name) !in cs
  }

  function Renamed(cs: Cards, oldName: string, newName: string): Cards {
    if HasGroup(cs, newName) then cs
    else set c | c in cs :: if c.Group? && c.name == oldName then Group(c.gid, newName) else c
  }

  function Moved(cs: Cards, from: string, to: string, name: string): Cards {
    if !HasBuddy(cs, from, name) || to == "" || to == from || !HasGroup(cs, to) then cs
    else var rest := Less(cs, from, name); rest + In(rest, to, name)
  }

  // The roster after an edit; id is the id given to a new group.
  function Meaning(cs: Cards, e: Edit, id: u16): Cards {
    match e
    case AddingGroup(name) => if HasGroup(cs, name) then cs else cs + {Group(id, name)}
    case DeletingGroup(name) => LessGroup(cs, name)
    case RenamingGroup(o, n) => Renamed(cs, o, n)
    case AddingBuddy(group, name, _, _) => cs + In(cs, group, name)
    case DeletingBuddy(group, name) => Less(cs, group, name)
    case MovingBuddy(from, to, name, _) => Moved(cs, from, to, name)
    case _ => cs
  }

  // ---- Finding groups and buddies ----

  lemma GroupFound(s: List, name: string)
    requires Ordered(s)
    ensures GroupByName(s, name).Some? <==> HasGroup(Roster(s), name)
    ensures GroupByName(s, name).Some? ==>
              var g := GroupByName(s, name).value;
              forall c | c in Roster(s) && c.Group? :: c.name == name <==> c == CardOf(s.mem[g])
  {
    var found := GroupByName(s, name);
    if found.Some? {
      var g := found.value;
      assert CardOf(s.mem[g]) in Roster(s);
      forall c | c in Roster(s) && c.Group? && c.name == name ensures c == CardOf(s.mem[g]) {
        var p :| p in Live(s) && p < |s.mem| && Shown(s.mem[p]) && CardOf(s.mem[p]) == c;
        assert p != g ==> !Clash(s.mem[p], s.mem[g]);
      }
    }
  }

  // In the roster's terms the group that a name finds has exactly one card for each of its buddies.
  lemma InFound(s: List, group: string, name: string)
    requires Ordered(s)
    ensures In(Roster(s), group, name)
         == match GroupByName(s, group) case Some(g) => {Buddy(s.mem[g].groupId, Ident(name))} case None => {}
  {
    GroupFound(s, group);
    var found := GroupByName(s, group);
    if found.Some? {
      assert CardOf(s.mem[found.value]) in Roster(s);
    }
  }

  lemma BuddyFound(s: List, g: Ptr, name: string)
    requires Ordered(s) && g in Live(s)
    ensures BuddyItem(s, g, name).Some? <==> Buddy(s.mem[g].groupId, Ident(name)) in Roster(s)
  {
    var found := BuddyItem(s, g, name);
    var c := Buddy(s.mem[g].groupId, Ident(name));
    if found.Some? {
      assert ItemOk(s.mem[found.value]);
      assert CardOf(s.mem[found.value]) == c;
    } else {
      IdentIdempotent(name);
    }
  }

  // ---- Changes that the roster does not show ----

  // The shown items are the same ones, with the same cards.
  ghost predicate SameCards(s: List, r: List) {
    && (forall p :: p in Live(s) && p < |s.mem| && Shown(s.mem[p]) ==>
          p in Live(r) && p < |r.mem| && Shown(r.mem[p]) && CardOf(r.mem[p]) == CardOf(s.mem[p]))
    && (forall p :: p in Live(r) && p < |r.mem| && Shown(r.mem[p]) ==>
          p in Live(s) && p < |s.mem| && Shown(s.mem[p]))
  }

  lemma SameRoster(s: List, r: List)
    requires SameCards(s, r)
    ensures Roster(r) == Roster(s)
  {
    forall c | c in Roster(s) ensures c in Roster(r) {
      var p :| p in Live(s) && p < |s.mem| && Shown(s.mem[p]) && CardOf(s.mem[p]) == c;
      assert CardOf(r.mem[p]) == c;
    }
  }

  // Rewriting an item without changing its card.
  lemma PutHidden(s: List, p: Ptr, x: Item)
    requires Wf(s) && p < |s.mem| && Shown(x) == Shown(s.mem[p]) && (Shown(x) ==> CardOf(x) == CardOf(s.mem[p]))
    ensures Roster(Track(Put(s, p, x), p)) == Roster(s) && Roster(Put(s, p, x)) == Roster(s)
  {
    SameRoster(s, Put(s, p, x));
  }

  lemma {:induction false} RootsHidden(s: List, gid: u16, i: nat)
    requires Wf(s) && i <= |s.items|
    ensures Roster(RemoveFromRoots(s, gid, i)) == Roster(s)
    decreases |s.items| - i
  {
    if i < |s.items| {
      var p := s.items[i];
      if s.mem[p].IsRoot() {
        var x := RemoveMember(s.mem[p], gid);
        PutHidden(s, p, x);
        RootsHidden(Track(Put(s, p, x), p), gid, i + 1);
      } else {
        RootsHidden(s, gid, i + 1);
      }
    }
  }

  lemma AliasItemHidden(s: List, p: Ptr, name: string, alias: seq<byte>)
    requires Wf(s) && p < |s.mem|
    ensures Roster(AliasItem(s, p, name, alias)) == Roster(s)
  {
    var x := s.mem[p];
    if x.classId == BUDDY && Ident(x.name) == Ident(name) {
      PutHidden(s, p, x.(tlvs := if alias != [] then Set(x.tlvs, TLV(ALIAS, alias)) else Remove(x.tlvs, ALIAS)));
    }
  }

  lemma {:induction false} AliasHidden(s: List, name: string, alias: seq<byte>, i: nat)
    requires Wf(s) && i <= |s.items|
    ensures Roster(AliasFrom(s, name, alias, i)) == Roster(s)
    decreases |s.items| - i
  {
    if i < |s.items| {
      AliasItemHidden(s, s.items[i], name, alias);
      AliasHidden(AliasItem(s, s.items[i], name, alias), name, alias, i + 1);
    }
  }

  // ---- Changes that it does show ----

  // An item leaves the list.
  lemma RosterDrops(live: set<Ptr>, mem: seq<Item>, p: Ptr)
    requires Sound(live, mem) && p in live
    ensures CardsIn(live - {p}, mem)
            == if Shown(mem[p]) then CardsIn(live, mem) - {CardOf(mem[p])} else CardsIn(live, mem)
  {
    forall c | c in CardsIn(live, mem) && !(Shown(mem[p]) && c
        == CardOf(mem[p])) ensures c in CardsIn(live - {p}, mem) {
      var q :| q in live && q < |mem| && Shown(mem[q]) && CardOf(mem[q]) == c;
      assert q in live - {p};
    }
    forall q | q in live - {p} && Shown(mem[q]) && Shown(mem[p]) ensures CardOf(mem[q]) != CardOf(mem[p]) {
      assert !Clash(mem[q], mem[p]);
    }
  }

  // A new item joins the list.
  lemma RosterGains(live: set<Ptr>, mem: seq<Item>, x: Item)
    requires forall p :: p in live ==> p < |mem|
    ensures CardsIn(live + {|mem|}, mem + [x])
         == CardsIn(live, mem) + if Shown(x) then {CardOf(x)} else {}
  {
    var after := CardsIn(live + {|mem|}, mem + [x]);
    forall c | c in CardsIn(live, mem) ensures c in after {
      var q :| q in live && q < |mem| && Shown(mem[q]) && CardOf(mem[q]) == c;
      assert (mem + [x])[q] == mem[q];
    }
    if Shown(x) { assert (mem + [x])[|mem|] == x; assert CardOf(x) in after; }
  }

  lemma AddGroupMeans(s: List, name: string, start: u16)
    requires Ordered(s) && Room(s)
    ensures Roster(AddGroup(s, name, start)) == Meaning(Roster(s), AddingGroup(name), GenId(View(s), start))
    ensures forall c :: c in Roster(s) ==> c.gid != GenId(View(s), start)
  {
    NewIdUnseen(s, start);
    GroupFound(s, name);
    if GroupByName(s, name).None? {
      EnrollMeans(s, Item(name, GenId(View(s), start), 0, GROUP, []));
    }
  }

  lemma NewIdUnseen(s: List, start: u16)
    requires Ordered(s) && Room(s)
    ensures GenId(View(s), start) != 0 && forall c :: c in Roster(s) ==> c.gid != GenId(View(s), start)
  {
    FreshId(s, start);
  }

  lemma EnrollMeans(s: List, group: Item)
    requires Wf(s) && group.IsGroup()
    ensures Roster(EnrollGroup(s, group)) == Roster(s) + {Group(group.groupId, group.name)}
  {
    LiveAppend(s, group);
    RosterGains(Live(s), s.mem, group);
    EnrollHidden(Append(s, group), |s.mem|, group.groupId);
  }

  // The root may join the list, and its order changes: neither shows.
  lemma EnrollHidden(s1: List, p: Ptr, id: u16)
    requires Wf(s1) && p < |s1.mem|
    ensures var Rooted(s2, root) := RootGroup(s1);
      Roster(Track(Track(Put(s2, root, AppendMember(s2.mem[root], id)), root), p)) == Roster(s1)
  {
    var Rooted(s2, root) := RootGroup(s1);
    if FindRoot(s1).None? {
      LiveAppend(s1, NEW_ROOT);
      RosterGains(Live(s1), s1.mem, NEW_ROOT);
    }
    PutHidden(s2, root, AppendMember(s2.mem[root], id));
  }

  lemma DeleteGroupMeans(s: List, name: string)
    requires Ordered(s) && SafeToDelete(s, name)
    ensures Roster(DeleteGroup(s, name)) == LessGroup(Roster(s), name)
  {
    GroupFound(s, name);
    var found := GroupByName(s, name);
    if found.Some? {
      var gid := s.mem[found.value].groupId;
      var s1 := DeleteAll(s, Members(s, gid, 0));
      SafeDeletion(s, name);
      RootsHidden(s1, gid, 0);
      RootsKeepItems(s1, gid, 0);
      assert Live(s1) == set p | p in Live(s) && s.mem[p].groupId != gid;
      LeavingGroup(s, name, gid, Live(s1));
    }
  }

  lemma {:induction false} RootsKeepItems(s: List, gid: u16, i: nat)
    requires Wf(s) && i <= |s.items|
    ensures RemoveFromRoots(s, gid, i).items == s.items
    decreases |s.items| - i
  {
    if i < |s.items| {
      var p := s.items[i];
      if s.mem[p].IsRoot() {
        RootsKeepItems(Track(Put(s, p, RemoveMember(s.mem[p], gid)), p), gid, i + 1);
      } else {
        RootsKeepItems(s, gid, i + 1);
      }
    }
  }

  lemma LeavingGroup(s: List, name: string, gid: u16, live: set<Ptr>)
    requires Ordered(s) && Group(gid, name) in Roster(s)
    requires forall c | c in Roster(s) && c.Group? && c.name == name :: c.gid == gid
    requires live == set p | p in Live(s) && s.mem[p].groupId != gid
    ensures CardsIn(live, s.mem) == LessGroup(Roster(s), name)
  {
    forall c | c in Roster(s) && c.gid != gid ensures c in CardsIn(live, s.mem) && Group(c.gid, name) !in Roster(s) {
      var p :| p in Live(s) && p < |s.mem| && Shown(s.mem[p]) && CardOf(s.mem[p]) == c;
      assert p in live;
    }
  }

  lemma RenameGroupMeans(s: List, oldName: string, newName: string)
    requires Ordered(s)
    ensures Roster(RenameGroup(s, oldName, newName).0) == Renamed(Roster(s), oldName, newName)
  {
    GroupFound(s, oldName);
    GroupFound(s, newName);
    var found := GroupByName(s, oldName);
    if found.Some? && GroupByName(s, newName).None? {
      var g := found.value;
      RenamedCards(s, g, newName);
    }
  }

  lemma OtherNames(s: List, g: Ptr, newName: string)
    requires Ordered(s) && g in Live(s) && s.mem[g].IsGroup()
    ensures var r := Put(s, g, s.mem[g].(name := newName));
      forall p | p in Live(s) && Shown(s.mem[p]) ::
        && CardOf(r.mem[p]) == (if p == g then Group(s.mem[g].groupId, newName) else CardOf(s.mem[p]))
        && CardOf(s.mem[p]) in Roster(s)
        && (p != g ==> !(CardOf(s.mem[p]).Group? && CardOf(s.mem[p]).name == s.mem[g].name))
  {
    forall p | p in Live(s) && p != g ensures !Clash(s.mem[p], s.mem[g]) {}
  }

  lemma RenamedCards(s: List, g: Ptr, newName: string)
    requires Ordered(s) && g in Live(s) && s.mem[g].IsGroup() && !HasGroup(Roster(s), newName)
    requires forall c | c in Roster(s) && c.Group? :: c.name == s.mem[g].name <==> c == CardOf(s.mem[g])
    ensures Roster(Track(Put(s, g, s.mem[g].(name := newName)), g)) == Renamed(Roster(s), s.mem[g].name, newName)
  {
    var r := Put(s, g, s.mem[g].(name := newName));
    var was := s.mem[g].name;
    OtherNames(s, g, newName);
    forall c | c in Renamed(Roster(s), was, newName) ensures c in Roster(r) {
      var b :| b in Roster(s) && c == if b.Group? && b.name == was then Group(b.gid, newName) else b;
      var p :| p in Live(s) && p < |s.mem| && Shown(s.mem[p]) && CardOf(s.mem[p]) == b;
      assert CardOf(r.mem[p]) == c && Shown(r.mem[p]);
    }
    forall c | c in Roster(r) ensures c in Renamed(Roster(s), was, newName) {
      var p :| p in Live(r) && p < |r.mem| && Shown(r.mem[p]) && CardOf(r.mem[p]) == c;
      var b := CardOf(s.mem[p]);
      assert b in Roster(s) && c == if b.Group? && b.name == was then Group(b.gid, newName) else b;
    }
  }

  lemma AddBuddyMeans(s: List, group: string, name: string, attrs: seq<TLV>, start: u16)
    requires Ordered(s) && Room(s)
    ensures Roster(AddBuddyItem(s, group, name, attrs, start).list) == Roster(s) + In(Roster(s), group, name)
  {
    InFound(s, group, name);
    var found := GroupByName(s, group);
    if found.Some? {
      var g := found.value;
      var item := Item(name, s.mem[g].groupId, 0, BUDDY, attrs);
      UpsertMeans(s, item, start);
      var up := UpsertItem(s, item, start);
      if up.inserted {
        assert up.list.mem[g] == s.mem[g];
        PutHidden(up.list, g, AppendMember(up.list.mem[g], up.list.mem[up.ptr].itemId));
      }
    }
  }

  lemma UpsertMeans(s: List, item: Item, start: u16)
    requires Ordered(s) && item.classId == BUDDY
    ensures Roster(UpsertItem(s, item, start).list) == Roster(s) + {Buddy(item.groupId, Ident(item.name))}
  {
    var it := Stored(item);
    StoredTwice(item);
    match FindMatch(s, it)
    case Some(p) =>
      var x := s.mem[p];
      assert ItemOk(x) && x.name == Ident(item.name) && CardOf(x) == Buddy(item.groupId, Ident(item.name));
      assert CardOf(x) in Roster(s);
      PutHidden(s, p, it.(itemId := x.itemId, groupId := x.groupId));
    case None =>
      var x := it.(itemId := GenId(View(s), start));
      LiveAppend(s, x);
      RosterGains(Live(s), s.mem, x);
  }

  lemma DeleteFromMeans(s: List, g: Ptr, name: string)
    requires Ordered(s) && g in Live(s) && s.mem[g].IsGroup()
    ensures Roster(DeleteFrom(s, g, name)) == Roster(s) - {Buddy(s.mem[g].groupId, Ident(name))}
  {
    var item := Item(name, s.mem[g].groupId, 0, BUDDY, []);
    var d := DeleteItem(s, item);
    DeleteItemLive(s, item);
    if d.found.Some? {
      var b := d.found.value;
      assert ItemOk(s.mem[b]) && s.mem[b].name == Ident(name);
      RosterDrops(Live(s), s.mem, b);
      PutHidden(d.list, g, RemoveMember(s.mem[g], s.mem[b].itemId));
    } else {
      NotListed(s, item);
    }
  }

  lemma NotListed(s: List, item: Item)
    requires Ordered(s) && item.classId == BUDDY && FirstMatch(s, item) == |s.items|
    ensures Buddy(item.groupId, Ident(item.name)) !in Roster(s)
  {
    forall p | p in Live(s) && Shown(s.mem[p]) ensures CardOf(s.mem[p]) != Buddy(item.groupId, Ident(item.name)) {
      var i :| 0 <= i < |s.items| && s.items[i] == p;
      assert View(s)[i] == s.mem[p] && !Matches(s.mem[p], item);
      IdentIdempotent(item.name);
    }
  }

  ghost function GidsOf(s: List, gs: seq<Ptr>): set<u16> {
    set i | 0 <= i < |gs| && gs[i] < |s.mem| :: s.mem[gs[i]].groupId
  }

  // Without the buddies of that name in the groups of those ids.
  function LessIn(cs: Cards, gids: set<u16>, name: string): Cards {
    set c | c in cs && !(c.Buddy? && c.name == Ident(name) && c.gid in gids)
  }

  lemma {:induction false} DeleteFromAllMeans(s: List, gs: seq<Ptr>, name: string)
    requires Ordered(s) && forall i :: 0 <= i < |gs| ==> gs[i] in Live(s) && gs[i] < |s.mem| && s.mem[gs[i]].IsGroup()
    ensures Roster(DeleteFromAll(s, gs, name)) == LessIn(Roster(s), GidsOf(s, gs), name)
    decreases |gs|
  {
    if gs != [] {
      var s1 := DeleteFrom(s, gs[0], name);
      DeleteFromMeans(s, gs[0], name);
      DeleteFromKeeps(s, gs[0], name);
      DeleteFromAllMeans(s1, gs[1..], name);
      GidsNext(s, s1, gs);
      LessStep(Roster(s), s.mem[gs[0]].groupId, GidsOf(s1, gs[1..]), name);
    }
  }

  lemma LessStep(cs: Cards, gid: u16, gids: set<u16>, name: string)
    ensures LessIn(cs - {Buddy(gid, Ident(name))}, gids, name) == LessIn(cs, gids + {gid}, name)
  {
  }

  lemma GidsNext(s: List, s1: List, gs: seq<Ptr>)
    requires Wf(s) && Wf(s1) && gs != [] && |s1.mem| == |s.mem| && GroupsStay(s, s1)
    requires forall i :: 0 <= i < |gs| ==> gs[i] in Live(s) && gs[i] < |s.mem| && s.mem[gs[i]].IsGroup()
    ensures GidsOf(s, gs) == GidsOf(s1, gs[1..]) + {s.mem[gs[0]].groupId}
  {
    forall i | 1 <= i < |gs| ensures s1.mem[gs[i]].groupId == s.mem[gs[i]].groupId && gs[1..][i - 1] == gs[i] {}
    forall id | id in GidsOf(s, gs) ensures id in GidsOf(s1, gs[1..]) + {s.mem[gs[0]].groupId} {
      var i :| 0 <= i < |gs| && gs[i] < |s.mem| && s.mem[gs[i]].groupId == id;
      if i > 0 { assert s1.mem[gs[1..][i - 1]].groupId == id; }
    }
    forall id | id in GidsOf(s1, gs[1..]) ensures id in GidsOf(s, gs) {
      var i :| 0 <= i < |gs| - 1 && gs[1..][i] < |s1.mem| && s1.mem[gs[1..][i]].groupId == id;
      assert s.mem[gs[i + 1]].groupId == id;
    }
  }

  // Every buddy is in one of the groups.
  lemma BuddiesGrouped(s: List, gs: seq<Ptr>)
    requires Ordered(s) && gs == GroupsFrom(s, 0)
    ensures forall c :: c in Roster(s) && c.Buddy? ==> c.gid in GidsOf(s, gs)
  {
    assert s.items[0..] == s.items;
    forall c | c in Roster(s) && c.Buddy? ensures c.gid in GidsOf(s, gs) {
      var p :| p in Live(s) && p < |s.mem| && Shown(s.mem[p]) && CardOf(s.mem[p]) == c;
      assert Indexed(Live(s), s.mem, s.mem[p]);
      var g :| g in Live(s) && g < |s.mem| && s.mem[g].IsGroup() && s.mem[g].groupId == c.gid;
      assert g in gs;
    }
  }

  lemma DeleteBuddyMeans(s: List, group: string, name: string)
    requires Ordered(s)
    ensures Roster(DeleteBuddy(s, group, name).0) == Less(Roster(s), group, name)
  {
    if group == EVERYWHERE {
      var gs := GroupsFrom(s, 0);
      DeleteFromAllMeans(s, gs, name);
      BuddiesGrouped(s, gs);
    } else {
      InFound(s, group, name);
      var found := GroupByName(s, group);
      if found.Some? { DeleteFromMeans(s, found.value, name); }
    }
  }

  lemma RepositionHidden(s: List, g: Ptr, name: string, before: string)
    requires Wf(s) && g < |s.mem|
    ensures Roster(Reposition(s, g, name, before)) == Roster(s)
  {
    var m, b := BuddyItem(s, g, name), BuddyItem(s, g, before);
    if before != "" && m.Some? && b.Some? && HasTag(s.mem[g].tlvs, ORDER) {
      var ids := MovedBefore(Order(s.mem[g].tlvs), s.mem[m.value].itemId, s.mem[b.value].itemId);
      PutHidden(s, g, s.mem[g].(tlvs := SetOrder(s.mem[g].tlvs, ids)));
    }
  }

  lemma MoveBuddyMeans(s: List, from: string, to: string, name: string, before: string, start: u16)
    requires Ordered(s) && Room(s)
    ensures Roster(MoveBuddy(s, from, to, name, before, start).0) == Moved(Roster(s), from, to, name)
  {
    InFound(s, from, name);
    GroupFound(s, to);
    var src := GroupByName(s, from);
    if src.Some? {
      BuddyFound(s, src.value, name);
      if BuddyItem(s, src.value, name).Some? { MoveFound(s, from, to, name, before, start); }
    }
  }

  lemma MoveFound(s: List, from: string, to: string, name: string, before: string, start: u16)
    requires Ordered(s) && Room(s) && GroupByName(s, from).Some?
    requires BuddyItem(s, GroupByName(s, from).value, name).Some?
    ensures Roster(MoveBuddy(s, from, to, name, before, start).0) == Moved(Roster(s), from, to, name)
  {
    GroupFound(s, to);
    if to == "" || to == from {
      RepositionHidden(s, GroupByName(s, from).value, name, before);
    } else if GroupByName(s, to).Some? {
      BuddyThere(s, from, name);
      var g := GroupByName(s, from).value;
      MoveToOther(s, from, to, name, before, start, g, BuddyItem(s, g, name).value, GroupByName(s, to).value);
    }
  }

  // A move to another group: the buddy is deleted from the one, added to the other and put in its place.
  function Across(s: List, from: string, to: string, name: string, before: string, attrs: seq<TLV>, dst: Ptr,
                  start: u16): List
    requires Wf(s) && dst < |s.mem|
  {
    var added := AddBuddyItem(DeleteBuddy(s, from, name).0, to, name, attrs, start);
    if added.err.Some? then added.list else Reposition(added.list, dst, name, before)
  }

  lemma MoveIsAcross(s: List, from: string, to: string, name: string, before: string, start: u16, src: Ptr,
                     b: Ptr, dst: Ptr)
    requires Wf(s) && to != "" && to != from && dst < |s.mem| && b < |s.mem| && src < |s.mem|
    requires GroupByName(s, from) == Some(src) && BuddyItem(s, src, name) == Some(b) && GroupByName(s, to) == Some(dst)
    ensures MoveBuddy(s, from, to, name, before, start).0
            == Across(s, from, to, name, before, s.mem[b].tlvs, dst, start)
  {
  }

  lemma MoveToOther(s: List, from: string, to: string, name: string, before: string, start: u16, src: Ptr,
                     b: Ptr, dst: Ptr)
    requires Ordered(s) && Room(s) && to != "" && to != from && dst in Live(s)
    requires GroupByName(s, from) == Some(src) && BuddyItem(s, src, name) == Some(b) && GroupByName(s, to) == Some(dst)
    requires HasBuddy(Roster(s), from, name) && HasGroup(Roster(s), to)
    ensures Roster(MoveBuddy(s, from, to, name, before, start).0) == Moved(Roster(s), from, to, name)
  {
    MoveIsAcross(s, from, to, name, before, start, src, b, dst);
    MovedAcross(s, from, to, name, before, s.mem[b].tlvs, dst, start);
  }

  lemma BuddyThere(s: List, group: string, name: string)
    requires Ordered(s) && GroupByName(s, group).Some? && BuddyItem(s, GroupByName(s, group).value, name).Some?
    ensures HasBuddy(Roster(s), group, name)
  {
    var g := GroupByName(s, group).value;
    InFound(s, group, name);
    BuddyFound(s, g, name);
    assert Buddy(s.mem[g].groupId, Ident(name)) in In(Roster(s), group, name);
  }

  lemma MovedAcross(s: List, from: string, to: string, name: string, before: string, attrs: seq<TLV>, dst: Ptr,
      start: u16)
    requires Ordered(s) && Room(s) && dst in Live(s)
    ensures var rest := Less(Roster(s), from, name);
      Roster(Across(s, from, to, name, before, attrs, dst, start)) == rest + In(rest, to, name)
  {
    var s1 := DeleteBuddy(s, from, name).0;
    DeleteBuddyMeans(s, from, name);
    DeleteBuddyKeeps(s, from, name);
    AddBuddyMeans(s1, to, name, attrs, start);
    RepositionHidden(AddBuddyItem(s1, to, name, attrs, start).list, dst, name, before);
  }

  lemma OtherHidden(s: List, e: Edit, start: u16)
    requires Ordered(s) && Allowed(e)
    requires e.PuttingOther? || e.DeletingOther? || e.DeletingLinked?
    ensures Roster(Apply(s, e, start)) == Roster(s)
  {
    match e
    case PuttingOther(item) => PutOtherHidden(s, item, start);
    case DeletingOther(item) => DroppedHidden(s, item);
    case DeletingLinked(n) => LinkedHidden(s, n);
  }

  lemma PutOtherHidden(s: List, item: Item, start: u16)
    requires Ordered(s) && Ungrouped(item)
    ensures Roster(UpsertItem(s, item, start).list) == Roster(s)
  {
    var it := Stored(item);
    match FindMatch(s, it)
    case Some(p) => PutHidden(s, p, it.(itemId := s.mem[p].itemId, groupId := s.mem[p].groupId));
    case None =>
      var x := it.(itemId := GenId(View(s), start));
      LiveAppend(s, x);
      RosterGains(Live(s), s.mem, x);
  }

  lemma LinkedHidden(s: List, name: string)
    requires Ordered(s)
    ensures Roster(DeleteLinked(s, name)) == Roster(s)
  {
    var item := Item(name, 0, 0, ALINFO, []);
    DroppedHidden(s, item);
    var d := DeleteItem(s, item);
    if d.found.Some? && FindRoot(d.list).None? {
      LiveAppend(d.list, NEW_ROOT);
      RosterGains(Live(d.list), d.list.mem, NEW_ROOT);
    }
  }

  lemma DroppedHidden(s: List, item: Item)
    requires Ordered(s) && Ungrouped(item)
    ensures Roster(DeleteItem(s, item).list) == Roster(s)
  {
    DeleteItemLive(s, item);
    var d := DeleteItem(s, item);
    if d.found.Some? { RosterDrops(Live(s), s.mem, d.found.value); }
  }

  // Every permitted edit changes the roster in just the way its name says; the id of a new group is new to it.
  lemma EditMeans(s: List, e: Edit, start: u16)
    requires Ordered(s) && Permitted(s, e)
    ensures Roster(Apply(s, e, start)) == Meaning(Roster(s), e, GenId(View(s), start))
    ensures e.AddingGroup? ==> forall c :: c in Roster(s) ==> c.gid != GenId(View(s), start)
  {
    if e.AddingGroup? {
      AddGroupMeans(s, e.name, start);
    } else if e.DeletingGroup? {
      DeleteGroupMeans(s, e.name);
    } else if e.RenamingGroup? {
      RenameGroupMeans(s, e.oldName, e.newName);
    } else if e.CollapsingGroup? {
      var found := GroupByName(s, e.name);
      if found.Some? {
        var x := s.mem[found.value];
        PutHidden(s, found.value,
          x.(tlvs := if e.collapsed then Set(x.tlvs, TLV(COLLAPSED, [])) else Remove(x.tlvs, COLLAPSED)));
      }
    } else {
      BuddyEditMeans(s, e, start);
    }
  }

  lemma BuddyEditMeans(s: List, e: Edit, start: u16)
    requires Ordered(s) && Permitted(s, e)
    requires !e.AddingGroup? && !e.DeletingGroup? && !e.RenamingGroup? && !e.CollapsingGroup?
    ensures Roster(Apply(s, e, start)) == Meaning(Roster(s), e, GenId(View(s), start))
  {
    if e.AddingBuddy? {
      AddBuddyMeans(s, e.group, e.name, Attributes(e.alias, e.note), start);
    } else if e.DeletingBuddy? {
      DeleteBuddyMeans(s, e.group, e.name);
    } else if e.MovingBuddy? {
      MoveBuddyMeans(s, e.from, e.to, e.name, e.before, start);
    } else if e.Aliasing? {
      AliasHidden(s, e.name, e.alias, 0);
    } else {
      OtherHidden(s, e, start);
    }
  }

  // ---- Positions ----

  // A move to just before another buddy of the group puts it there: its id directly precedes the other's in the
  // group's order, which keeps its ids.
  lemma RepositionPlaces(s: List, g: Ptr, name: string, before: string)
    requires Ordered(s) && g in Live(s) && s.mem[g].IsGroup() && before != ""
    requires BuddyItem(s, g, name).Some? && BuddyItem(s, g, before).Some? && Ident(name) != Ident(before)
    ensures var m, b := BuddyItem(s, g, name).value, BuddyItem(s, g, before).value;
      var was, ids := Order(s.mem[g].tlvs), Order(Reposition(s, g, name, before).mem[g].tlvs);
      IdSet(ids) == IdSet(was) && Follows(ids, s.mem[m].itemId, s.mem[b].itemId)
  {
    var m, b := BuddyItem(s, g, name).value, BuddyItem(s, g, before).value;
    TwoInOrder(s, g, m, b);
    RepositionedOrder(s, g, name, before);
    MovedFollows(Order(s.mem[g].tlvs), s.mem[m].itemId, s.mem[b].itemId);
  }

  lemma RepositionedOrder(s: List, g: Ptr, name: string, before: string)
    requires Wf(s) && g < |s.mem| && before != "" && HasTag(s.mem[g].tlvs, ORDER)
    requires BuddyItem(s, g, name).Some? && BuddyItem(s, g, before).Some?
    ensures var m, b := BuddyItem(s, g, name).value, BuddyItem(s, g, before).value;
      Order(Reposition(s, g, name, before).mem[g].tlvs)
        == MovedBefore(Order(s.mem[g].tlvs), s.mem[m].itemId, s.mem[b].itemId)
  {
    var m, b := BuddyItem(s, g, name).value, BuddyItem(s, g, before).value;
    OrderOfSetOrder(s.mem[g].tlvs, MovedBefore(Order(s.mem[g].tlvs), s.mem[m].itemId, s.mem[b].itemId));
  }

  ghost predicate Follows(ids: seq<u16>, id: u16, next: u16) {
    exists i :: 0 <= i < |ids| - 1 && ids[i] == id && ids[i + 1] == next
  }

  lemma MovedFollows(was: seq<u16>, id: u16, mark: u16)
    requires Distinct(was) && id in was && mark in was && id != mark
    ensures IdSet(MovedBefore(was, id, mark)) == IdSet(was) && Follows(MovedBefore(was, id, mark), id, mark)
  {
    MovedBeforeKeepsIds(was, id, mark);
  }

  // Two buddies of a group are in its order, under different ids.
  lemma TwoInOrder(s: List, g: Ptr, m: Ptr, b: Ptr)
    requires Ordered(s) && g in Live(s) && s.mem[g].IsGroup() && m in Live(s) && b in Live(s) && m != b
    requires s.mem[m].classId == BUDDY && s.mem[m].groupId == s.mem[g].groupId
    requires s.mem[b].classId == BUDDY && s.mem[b].groupId == s.mem[g].groupId
    ensures HasTag(s.mem[g].tlvs, ORDER)
    ensures var was := Order(s.mem[g].tlvs);
      Distinct(was) && s.mem[m].itemId in was && s.mem[b].itemId in was && s.mem[m].itemId != s.mem[b].itemId
  {
    assert Indexed(Live(s), s.mem, s.mem[g]);
    var ids := BuddyIds(Live(s), s.mem, s.mem[g].groupId);
    assert s.mem[m].itemId in ids && s.mem[b].itemId in ids;
    assert s.mem[m].itemId in IdSet(Order(s.mem[g].tlvs));
    assert !Clash(s.mem[m], s.mem[b]);
  }
}
