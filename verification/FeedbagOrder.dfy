/**
 What every run of edits keeps: the order attributes index the list exactly, keys and names are unique.
 The invariant is about which pointers are live and what they hold, not about their position in the list.
 */
module FeedbagOrder {
  import opened Tlv
  import opened FeedbagItems
  import opened FeedbagEdits

  function Live(s: List): set<Ptr> { set p | p in s.items }

  function IdSet(ids: seq<u16>): set<u16> { set id | id in ids }

  // The item ids of the buddies in a group.
  ghost function BuddyIds(live: set<Ptr>, mem: seq<Item>, groupId: u16): set<u16> {
    set p | p in live && p < |mem| && mem[p].classId == BUDDY && mem[p].groupId == groupId :: mem[p].itemId
  }

  // The ids of the groups other than the root.
  ghost function GroupIds(live: set<Ptr>, mem: seq<Item>): set<u16> {
    set p | p in live && p < |mem| && mem[p].IsGroup() :: mem[p].groupId
  }

  ghost predicate HasRoot(live: set<Ptr>, mem: seq<Item>) {
    exists p :: p in live && p < |mem| && mem[p].IsRoot()
  }

  // The order attribute lists exactly these ids, once each.
  ghost predicate Lists(x: Item, ids: set<u16>) {
    Distinct(Order(x.tlvs)) && IdSet(Order(x.tlvs)) == ids
  }

  predicate ItemOk(x: Item) {
    && (if x.classId == GROUP then x.itemId == 0 && (x.groupId == 0 ==> x.name == "")
        else x.itemId != 0 && x.classId != MIN && (x.classId == BUDDY <==> x.groupId != 0))
    && Stored(x) == x
  }

  // Two items that may not be in the same list: the same key, two groups of one name, or two buddies of one name
  // in one group.
  predicate Clash(x: Item, y: Item) {
    || x.Key() == y.Key()
    || (x.IsGroup() && y.IsGroup() && x.name == y.name)
    || (x.classId == BUDDY && y.classId == BUDDY && x.groupId == y.groupId && x.name == y.name)
  }

  ghost predicate Sound(live: set<Ptr>, mem: seq<Item>) {
    && (forall p :: p in live ==> p < |mem| && ItemOk(mem[p]))
    && (forall p, q :: p in live && q in live && p != q ==> !Clash(mem[p], mem[q]))
  }

  // Every item is indexed where it belongs.
  ghost predicate Indexed(live: set<Ptr>, mem: seq<Item>, x: Item) {
    && (x.IsGroup() ==> Lists(x, BuddyIds(live, mem, x.groupId)))
    && (x.IsRoot() ==> Lists(x, GroupIds(live, mem)))
    && (x.classId == BUDDY ==> x.groupId in GroupIds(live, mem))
  }

  ghost predicate AllIndexed(live: set<Ptr>, mem: seq<Item>) {
    && (forall p :: p in live && p < |mem| ==> Indexed(live, mem, mem[p]))
    && (GroupIds(live, mem) != {} ==> HasRoot(live, mem))
  }

  ghost predicate Consistent(live: set<Ptr>, mem: seq<Item>) {
    Sound(live, mem) && AllIndexed(live, mem)
  }

  ghost predicate Ordered(s: List) {
    Wf(s) && Consistent(Live(s), s.mem)
  }

  // ---- How the primitive changes affect which pointers are live ----

  lemma LiveDrop(s: List, i: nat)
    requires Wf(s) && i < |s.items|
    ensures Live(Drop(s, i)) == Live(s) - {s.items[i]}
  {
    var r := Drop(s, i).items;
    forall p | p in s.items && p != s.items[i] ensures p in r {
      var j :| 0 <= j < |s.items| && s.items[j] == p;
      assert r[if j < i then j else j - 1] == p;
    }
  }

  lemma LiveAppend(s: List, x: Item)
    requires Wf(s)
    ensures Live(Append(s, x)) == Live(s) + {|s.mem|}
  {}

  // ---- An item changes in place ----

  predicate SameRole(x: Item, y: Item) {
    x.Key() == y.Key() && x.classId == y.classId
  }

  lemma RolesFixIds(live: set<Ptr>, a: seq<Item>, b: seq<Item>)
    requires |a| == |b| && forall p :: p in live && p < |a| ==> SameRole(a[p], b[p])
    ensures GroupIds(live, a) == GroupIds(live, b) && HasRoot(live, a) == HasRoot(live, b)
    ensures forall gid :: BuddyIds(live, a, gid) == BuddyIds(live, b, gid)
  {
    if HasRoot(live, a) { var p :| p in live && p < |a| && a[p].IsRoot(); assert b[p].IsRoot(); }
    if HasRoot(live, b) { var p :| p in live && p < |b| && b[p].IsRoot(); assert a[p].IsRoot(); }
  }

  // It keeps its key, its class and what its order lists, and does not take a name in use.
  lemma Rewrite(live: set<Ptr>, mem: seq<Item>, p: Ptr, x: Item)
    requires Consistent(live, mem) && p in live && SameRole(x, mem[p]) && ItemOk(x)
    requires forall q :: q in live && q != p ==> !Clash(x, mem[q]) && !Clash(mem[q], x)
    requires x.classId == GROUP ==>
               Distinct(Order(x.tlvs)) && IdSet(Order(x.tlvs)) == IdSet(Order(mem[p].tlvs))
    ensures Consistent(live, mem[p := x])
  {
    var mem' := mem[p := x];
    RolesFixIds(live, mem, mem');
    assert Sound(live, mem');
    forall q | q in live && q < |mem'| ensures Indexed(live, mem', mem'[q]) {
      assert Indexed(live, mem, mem[q]);
    }
  }

  // ---- A buddy arrives or leaves ----

  lemma IdsAfterBuddy(live: set<Ptr>, mem: seq<Item>, g: Ptr, x: Item, g': Item)
    requires Sound(live, mem) && g in live && x.classId == BUDDY && SameRole(g', mem[g])
    ensures var live', mem' := live + {|mem|}, (mem + [x])[g := g'];
            && GroupIds(live', mem') == GroupIds(live, mem)
            && (HasRoot(live, mem) ==> HasRoot(live', mem'))
            && forall gid :: BuddyIds(live', mem', gid)
                          == BuddyIds(live, mem, gid) + if gid == x.groupId then {x.itemId} else {}
  {
    var live', mem', n := live + {|mem|}, (mem + [x])[g := g'], |mem|;
    assert mem'[n] == x && n in live';
    forall p | p in live ensures SameRole(mem'[p], mem[p]) {}
    if HasRoot(live, mem) {
      var p :| p in live && p < |mem| && mem[p].IsRoot();
      assert mem'[p].IsRoot();
    }
    forall gid, id | id in BuddyIds(live, mem, gid) ensures id in BuddyIds(live', mem', gid) {
      var p :| p in live && p < |mem| && mem[p].classId == BUDDY && mem[p].groupId == gid && mem[p].itemId == id;
      assert mem'[p].itemId == id && p in live';
    }
    forall gid | gid in GroupIds(live, mem) ensures gid in GroupIds(live', mem') {
      var p :| p in live && p < |mem| && mem[p].IsGroup() && mem[p].groupId == gid;
      assert mem'[p].groupId == gid && p in live';
    }
  }

  lemma AppendMemberOrder(g: Item, id: u16)
    ensures Order(AppendMember(g, id).tlvs) == Order(g.tlvs) + [id]
    ensures SameRole(AppendMember(g, id), g) && AppendMember(g, id).name == g.name
    ensures ItemOk(g) ==> ItemOk(AppendMember(g, id))
  {
    OrderOfSetOrder(g.tlvs, Order(g.tlvs) + [id]);
  }

  lemma ListsAppended(g: Item, ids: set<u16>, id: u16)
    requires Lists(g, ids) && id !in ids
    ensures Lists(AppendMember(g, id), ids + {id})
  {
    AppendMemberOrder(g, id);
    assert forall k :: 0 <= k < |Order(g.tlvs)| ==> Order(g.tlvs)[k] in IdSet(Order(g.tlvs));
  }

  lemma SoundInsert(live: set<Ptr>, mem: seq<Item>, g: Ptr, x: Item, g': Item)
    requires Sound(live, mem) && ItemOk(x) && forall q :: q in live ==> !Clash(x, mem[q]) && !Clash(mem[q], x)
    requires g in live && SameRole(g', mem[g]) && g'.name == mem[g].name && ItemOk(g')
    ensures Sound(live + {|mem|}, (mem + [x])[g := g'])
  {
    var live', mem' := live + {|mem|}, (mem + [x])[g := g'];
    forall p, q | p in live' && q in live' && p != q ensures !Clash(mem'[p], mem'[q]) {
      if p in live && q in live { assert !Clash(mem[p], mem[q]); }
    }
  }

  // Its id goes to the end of its group's order.
  lemma InsertBuddy(live: set<Ptr>, mem: seq<Item>, g: Ptr, x: Item)
    requires Consistent(live, mem) && g in live && mem[g].IsGroup()
    requires x.classId == BUDDY && x.groupId == mem[g].groupId && ItemOk(x)
    requires forall q :: q in live ==> !Clash(x, mem[q]) && !Clash(mem[q], x)
    ensures Consistent(live + {|mem|}, (mem + [x])[g := AppendMember(mem[g], x.itemId)])
  {
    var g' := AppendMember(mem[g], x.itemId);
    var live', mem' := live + {|mem|}, (mem + [x])[g := g'];
    AppendMemberOrder(mem[g], x.itemId);
    IdsAfterBuddy(live, mem, g, x, g');
    assert x.itemId !in BuddyIds(live, mem, x.groupId) by {
      assert forall q :: q in live ==> x.Key() != mem[q].Key();
    }
    assert Indexed(live, mem, mem[g]);
    ListsAppended(mem[g], BuddyIds(live, mem, x.groupId), x.itemId);
    SoundInsert(live, mem, g, x, g');
    forall p | p in live' && p < |mem'| ensures Indexed(live', mem', mem'[p]) {
      if p == |mem| {
        assert x.groupId in GroupIds(live, mem);
      } else if p != g {
        assert Indexed(live, mem, mem[p]);
        assert !Clash(mem[p], mem[g]);
      }
    }
  }

  lemma RemoveMemberOrder(g: Item, id: u16)
    ensures Order(RemoveMember(g, id).tlvs) == Without(Order(g.tlvs), id)
    ensures SameRole(RemoveMember(g, id), g) && RemoveMember(g, id).name == g.name
    ensures ItemOk(g) ==> ItemOk(RemoveMember(g, id))
  {
    if HasTag(g.tlvs, ORDER) { OrderOfSetOrder(g.tlvs, Without(Order(g.tlvs), id)); }
  }

  lemma ListsRemoved(g: Item, ids: set<u16>, id: u16)
    requires Lists(g, ids)
    ensures Lists(RemoveMember(g, id), ids - {id})
  {
    RemoveMemberOrder(g, id);
    WithoutDistinct(Order(g.tlvs), id);
  }

  lemma IdsWithoutBuddy(live: set<Ptr>, mem: seq<Item>, g: Ptr, b: Ptr, g': Item)
    requires Sound(live, mem) && g in live && b in live && mem[b].classId == BUDDY && SameRole(g', mem[g]) && g != b
    ensures var live', mem' := live - {b}, mem[g := g'];
            && GroupIds(live', mem') == GroupIds(live, mem)
            && (HasRoot(live, mem) ==> HasRoot(live', mem'))
            && forall gid :: BuddyIds(live', mem', gid)
                          == BuddyIds(live, mem, gid) - if gid == mem[b].groupId then {mem[b].itemId} else {}
  {
    var live', mem' := live - {b}, mem[g := g'];
    forall p | p in live ensures SameRole(mem'[p], mem[p]) {}
    if HasRoot(live, mem) {
      var p :| p in live && p < |mem| && mem[p].IsRoot();
      assert mem'[p].IsRoot();
    }
    forall gid, id | id in BuddyIds(live, mem, gid) && !(gid == mem[b].groupId && id == mem[b].itemId)
      ensures id in BuddyIds(live', mem', gid)
    {
      var p :| p in live && p < |mem| && mem[p].classId == BUDDY && mem[p].groupId == gid && mem[p].itemId == id;
      assert mem'[p].itemId == id && p in live';
    }
    forall gid | gid in GroupIds(live, mem) ensures gid in GroupIds(live', mem') {
      var p :| p in live && p < |mem| && mem[p].IsGroup() && mem[p].groupId == gid;
      assert mem'[p].groupId == gid && p in live';
    }
    forall gid, id | id in BuddyIds(live', mem', gid) ensures id in BuddyIds(live, mem, gid)
      ensures !(gid == mem[b].groupId && id == mem[b].itemId)
    {
      var p :| p in live' && p < |mem'| && mem'[p].classId == BUDDY && mem'[p].groupId == gid && mem'[p].itemId == id;
      assert !Clash(mem[p], mem[b]);
    }
  }

  // Items leave and another is changed in its attributes.
  lemma SoundWithout(live: set<Ptr>, mem: seq<Item>, live': set<Ptr>, g: Ptr, g': Item)
    requires Sound(live, mem) && g in live && SameRole(g', mem[g]) && g'.name == mem[g].name && ItemOk(g')
    requires live' <= live
    ensures Sound(live', mem[g := g'])
  {
  }

  // A buddy leaves, and its id leaves its group's order.
  lemma RemoveBuddy(live: set<Ptr>, mem: seq<Item>, g: Ptr, b: Ptr)
    requires Consistent(live, mem) && g in live && mem[g].IsGroup()
    requires b in live && mem[b].classId == BUDDY && mem[b].groupId == mem[g].groupId
    ensures Consistent(live - {b}, mem[g := RemoveMember(mem[g], mem[b].itemId)])
  {
    var g' := RemoveMember(mem[g], mem[b].itemId);
    var live', mem' := live - {b}, mem[g := g'];
    RemoveMemberOrder(mem[g], mem[b].itemId);
    IdsWithoutBuddy(live, mem, g, b, g');
    assert Indexed(live, mem, mem[g]);
    ListsRemoved(mem[g], BuddyIds(live, mem, mem[g].groupId), mem[b].itemId);
    SoundWithout(live, mem, live', g, g');
    forall p | p in live' && p < |mem'| ensures Indexed(live', mem', mem'[p]) {
      if p != g { assert Indexed(live, mem, mem[p]) && !Clash(mem[p], mem[g]); }
    }
  }

  // ---- A group arrives or leaves ----

  // What a new, empty group n and the root r, which may itself be new, bring to the list.
  ghost predicate GroupArrives(live: set<Ptr>, mem: seq<Item>, n: Ptr, r: Ptr, mem': seq<Item>) {
    && n !in live && n != r && n < |mem'| && r < |mem'| && |mem| <= |mem'|
    && mem'[n].IsGroup() && ItemOk(mem'[n]) && Order(mem'[n].tlvs) == []
    && (forall q :: q in live && q < |mem| ==> mem[q].groupId != mem'[n].groupId)
    && (forall q :: q in live && q < |mem| && mem[q].IsGroup() ==> mem[q].name != mem'[n].name)
    && mem'[r].IsRoot() && ItemOk(mem'[r]) && Lists(mem'[r], GroupIds(live, mem) + {mem'[n].groupId})
    && (if r in live then r < |mem| && mem[r].IsRoot()
        else !HasRoot(live, mem) && forall q :: q in live && q < |mem| ==> mem[q].Key() != (0, 0))
    && forall q :: q in live && q < |mem| && q != r ==> mem'[q] == mem[q]
  }

  lemma SoundInsertGroup(live: set<Ptr>, mem: seq<Item>, n: Ptr, r: Ptr, mem': seq<Item>)
    requires Sound(live, mem) && GroupArrives(live, mem, n, r, mem')
    ensures Sound(live + {n, r}, mem')
  {
    var live' := live + {n, r};
    forall p | p in live && p != r ensures mem'[p].Key() != mem'[r].Key() && mem'[p].Key() != mem'[n].Key() {
      if r in live { assert !Clash(mem[p], mem[r]); }
    }
    forall p, q | p in live' && q in live' && p != q ensures !Clash(mem'[p], mem'[q]) {
      if p in live && q in live && p != r && q != r { assert !Clash(mem[p], mem[q]); }
    }
  }

  // A new, empty group takes its place in the order of the root.
  lemma InsertGroup(live: set<Ptr>, mem: seq<Item>, n: Ptr, r: Ptr, mem': seq<Item>)
    requires Consistent(live, mem) && GroupArrives(live, mem, n, r, mem')
    ensures Consistent(live + {n, r}, mem')
  {
    var live', gid := live + {n, r}, mem'[n].groupId;
    SoundInsertGroup(live, mem, n, r, mem');
    IdsWithGroup(live, mem, n, r, mem');
    assert HasRoot(live', mem') by { assert r in live' && mem'[r].IsRoot(); }
    assert BuddyIds(live, mem, gid) == {};
    forall p | p in live' && p < |mem'| ensures Indexed(live', mem', mem'[p]) {
      if p != n && p != r {
        assert Indexed(live, mem, mem[p]);
        assert !Clash(mem'[p], mem'[r]);
      }
    }
  }

  lemma IdsWithGroup(live: set<Ptr>, mem: seq<Item>, n: Ptr, r: Ptr, mem': seq<Item>)
    requires Sound(live, mem) && n < |mem'| && r < |mem'| && |mem| <= |mem'| && n !in live && n != r
    requires mem'[n].IsGroup() && mem'[r].IsRoot() && (r in live ==> mem[r].IsRoot())
    requires forall q :: q in live && q != r ==> mem'[q] == mem[q]
    ensures GroupIds(live + {n, r}, mem') == GroupIds(live, mem) + {mem'[n].groupId}
    ensures forall gid :: BuddyIds(live + {n, r}, mem', gid) == BuddyIds(live, mem, gid)
  {
    var live' := live + {n, r};
    forall gid, id | id in BuddyIds(live, mem, gid) ensures id in BuddyIds(live', mem', gid) {
      var p :| p in live && p < |mem| && mem[p].classId == BUDDY && mem[p].groupId == gid && mem[p].itemId == id;
      assert mem'[p].itemId == id && p in live';
    }
    forall gid | gid in GroupIds(live, mem) ensures gid in GroupIds(live', mem') {
      var p :| p in live && p < |mem| && mem[p].IsGroup() && mem[p].groupId == gid;
      assert mem'[p].groupId == gid && p in live';
    }
    assert mem'[n].groupId in GroupIds(live', mem');
  }

  // A group leaves with everything in it, and its id leaves the order of the root.
  lemma RemoveGroup(live: set<Ptr>, mem: seq<Item>, live': set<Ptr>, r: Ptr, gid: u16)
    requires Consistent(live, mem) && r in live && mem[r].IsRoot() && gid != 0
    requires forall p :: p in live' <==> p in live && mem[p].groupId != gid
    ensures Consistent(live', mem[r := RemoveMember(mem[r], gid)])
  {
    var r' := RemoveMember(mem[r], gid);
    var mem' := mem[r := r'];
    RemoveMemberOrder(mem[r], gid);
    assert Indexed(live, mem, mem[r]);
    ListsRemoved(mem[r], GroupIds(live, mem), gid);
    SoundWithout(live, mem, live', r, r');
    IdsWithoutGroup(live, mem, live', mem', gid);
    assert r in live' && HasRoot(live', mem');
    forall p | p in live' && p < |mem'| ensures Indexed(live', mem', mem'[p]) {
      if p != r {
        assert Indexed(live, mem, mem[p]);
        assert !Clash(mem[p], mem[r]);
      }
    }
  }

  lemma IdsWithoutGroup(live: set<Ptr>, mem: seq<Item>, live': set<Ptr>, mem': seq<Item>, gid: u16)
    requires Sound(live, mem) && |mem'| == |mem| && forall p :: p in live ==> SameRole(mem'[p], mem[p])
    requires forall p :: p in live' <==> p in live && mem[p].groupId != gid
    ensures GroupIds(live', mem') == GroupIds(live, mem) - {gid}
    ensures forall g :: g != gid ==> BuddyIds(live', mem', g) == BuddyIds(live, mem, g)
  {
    forall g, id | g != gid && id in BuddyIds(live, mem, g) ensures id in BuddyIds(live', mem', g) {
      var p :| p in live && p < |mem| && mem[p].classId == BUDDY && mem[p].groupId == g && mem[p].itemId == id;
      assert mem'[p].itemId == id && p in live';
    }
    forall g | g in GroupIds(live, mem) && g != gid ensures g in GroupIds(live', mem') {
      var p :| p in live && p < |mem| && mem[p].IsGroup() && mem[p].groupId == g;
      assert mem'[p].groupId == g && p in live';
    }
  }

  // ---- An item outside the groups arrives or leaves ----

  predicate Neutral(x: Item) { x.classId != BUDDY && !x.IsGroup() }

  lemma IdsWithNeutral(live: set<Ptr>, mem: seq<Item>, live': set<Ptr>, mem': seq<Item>)
    requires forall p :: p in live && p < |mem| && !Neutral(mem[p]) ==> p in live' && p < |mem'| && mem'[p] == mem[p]
    requires forall p :: p in live' && p < |mem'| && !Neutral(mem'[p]) ==> p in live && p < |mem| && mem'[p] == mem[p]
    ensures GroupIds(live', mem') == GroupIds(live, mem)
    ensures forall g :: BuddyIds(live', mem', g) == BuddyIds(live, mem, g)
  {
    forall g, id ensures id in BuddyIds(live, mem, g) <==> id in BuddyIds(live', mem', g) {
      if id in BuddyIds(live, mem, g) {
        var p :| p in live && p < |mem| && mem[p].classId == BUDDY && mem[p].groupId == g && mem[p].itemId == id;
        assert mem'[p].itemId == id && p in live';
      }
      if id in BuddyIds(live', mem', g) {
        var p :| p in live' && p < |mem'| && mem'[p].classId == BUDDY && mem'[p].groupId == g && mem'[p].itemId == id;
        assert mem[p].itemId == id && p in live;
      }
    }
    forall g ensures g in GroupIds(live, mem) <==> g in GroupIds(live', mem') {
      if g in GroupIds(live, mem) {
        var p :| p in live && p < |mem| && mem[p].IsGroup() && mem[p].groupId == g;
        assert mem'[p].groupId == g && p in live';
      }
      if g in GroupIds(live', mem') {
        var p :| p in live' && p < |mem'| && mem'[p].IsGroup() && mem'[p].groupId == g;
        assert mem[p].groupId == g && p in live;
      }
    }
  }

  lemma InsertNeutral(live: set<Ptr>, mem: seq<Item>, x: Item)
    requires Consistent(live, mem) && Neutral(x) && ItemOk(x)
    requires forall q :: q in live ==> x.Key() != mem[q].Key()
    requires x.IsRoot() ==> Order(x.tlvs) == [] && !HasRoot(live, mem)
    ensures Consistent(live + {|mem|}, mem + [x])
  {
    var live', mem' := live + {|mem|}, mem + [x];
    IdsWithNeutral(live, mem, live', mem');
    forall p, q | p in live' && q in live' && p != q ensures !Clash(mem'[p], mem'[q]) {
      if p in live && q in live { assert !Clash(mem[p], mem[q]); }
    }
    if HasRoot(live, mem) {
      var p :| p in live && p < |mem| && mem[p].IsRoot();
      assert mem'[p].IsRoot() && p in live';
    }
    forall p | p in live' && p < |mem'| ensures Indexed(live', mem', mem'[p]) {
      if p in live { assert Indexed(live, mem, mem[p]); }
    }
  }

  lemma RemoveNeutral(live: set<Ptr>, mem: seq<Item>, p: Ptr)
    requires Consistent(live, mem) && p in live && Neutral(mem[p]) && !mem[p].IsRoot()
    ensures Consistent(live - {p}, mem)
  {
    IdsWithNeutral(live, mem, live - {p}, mem);
    if HasRoot(live, mem) {
      var r :| r in live && r < |mem| && mem[r].IsRoot();
      assert r in live - {p};
    }
    forall q | q in live - {p} && q < |mem| ensures Indexed(live - {p}, mem, mem[q]) {
      assert Indexed(live, mem, mem[q]);
    }
  }
}
