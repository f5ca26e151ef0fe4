/**
 Deleting a group. DeleteGroup gathers the group's items by pointer but deletes each by class and name, and the
 root is a group item with an empty name: when the root stands before an unnamed group, the root goes instead.
 */
module FeedbagDeletion {
  import opened Common
  import opened Tlv
  import opened FeedbagItems
  import opened FeedbagEdits
  import opened FeedbagOrder
  import opened FeedbagRuns

  ghost predicate RootBefore(s: List, g: Ptr)
    requires Wf(s)
  {
    exists j, i :: 0 <= j < i < |s.items| && s.items[i] == g && s.mem[s.items[j]].IsRoot()
  }

  // The call that goes wrong: the name is empty and the root stands before the group it means.
  ghost predicate SafeToDelete(s: List, name: string)
    requires Wf(s)
  {
    name == "" && GroupByName(s, name).Some? ==> !RootBefore(s, GroupByName(s, name).value)
  }

  predicate InGroups(x: Item) { x.classId == BUDDY || x.IsGroup() }

  // Where the items of a list are after the i-th has gone, and where they were.
  lemma DropIndex(s: List, i: nat, a: nat)
    requires Wf(s) && i < |s.items|
    ensures a < |s.items| && a != i ==> Drop(s, i).items[if a < i then a else a - 1] == s.items[a]
    ensures a < |s.items| - 1 ==> s.items[if a < i then a else a + 1] == Drop(s, i).items[a]
  {}

  lemma RootBeforeUndropped(s: List, i: nat, g: Ptr)
    requires Wf(s) && i < |s.items|
    requires RootBefore(Drop(s, i), g)
    ensures RootBefore(s, g)
  {
    var r := Drop(s, i);
    var a, b :| 0 <= a < b < |r.items| && r.items[b] == g && r.mem[r.items[a]].IsRoot();
    DropIndex(s, i, a);
    DropIndex(s, i, b);
    var a', b' := if a < i then a else a + 1, if b < i then b else b + 1;
    assert s.items[b'] == g && s.mem[s.items[a']].IsRoot();
  }

  lemma RootBeforeDropped(s: List, i: nat, g: Ptr)
    requires Wf(s) && i < |s.items|
    requires RootBefore(s, g) && s.items[i] != g && !s.mem[s.items[i]].IsRoot()
    ensures RootBefore(Drop(s, i), g)
  {
    var r := Drop(s, i);
    var a, b :| 0 <= a < b < |s.items| && s.items[b] == g && s.mem[s.items[a]].IsRoot();
    DropIndex(s, i, a);
    DropIndex(s, i, b);
    var a', b' := if a < i then a else a - 1, if b < i then b else b - 1;
    assert r.items[b'] == g && r.mem[r.items[a']].IsRoot();
  }

  // The item that deleting a copy of p's item removes: p itself, or a root of the same name that stands before it.
  lemma DeleteFinds(s: List, p: Ptr)
    requires Wf(s) && Sound(Live(s), s.mem) && p in Live(s) && InGroups(s.mem[p])
    ensures DeleteItem(s, s.mem[p]).found.Some?
    ensures var q := DeleteItem(s, s.mem[p]).found.value;
            if s.mem[p].IsGroup() && s.mem[p].name == "" && RootBefore(s, p) then q != p && s.mem[q].IsRoot()
            else q == p
  {
    var k :| 0 <= k < |s.items| && s.items[k] == p;
    var i := FirstMatch(s, s.mem[p]);
    assert View(s)[k] == s.mem[p] && Matches(s.mem[p], s.mem[p]);
    assert i <= k;
    var q := s.items[i];
    assert View(s)[i] == s.mem[q] && q in Live(s);
    assert ItemOk(s.mem[p]) && ItemOk(s.mem[q]);
    if q != p {
      assert !Clash(s.mem[q], s.mem[p]);
      assert s.mem[q].IsRoot() && i < k;
    } else if s.mem[p].IsGroup() && s.mem[p].name == "" && RootBefore(s, p) {
      var a, b :| 0 <= a < b < |s.items| && s.items[b] == p && s.mem[s.items[a]].IsRoot();
      assert View(s)[a] == s.mem[s.items[a]] && s.items[a] in Live(s);
      assert ItemOk(s.mem[s.items[a]]);
      assert Matches(View(s)[a], s.mem[p]);
      assert false;
    }
  }

  // An unnamed group behind the root.
  ghost predicate Trap(s: List, g: Ptr)
    requires Wf(s)
  {
    g < |s.mem| && s.mem[g].IsGroup() && s.mem[g].name == "" && RootBefore(s, g)
  }

  ghost predicate Deletable(s: List, ps: seq<Ptr>)
    requires Wf(s)
  {
    && (forall i, j :: 0 <= i < j < |ps| ==> ps[i] != ps[j])
    && (forall i :: 0 <= i < |ps| ==> ps[i] in Live(s) && ps[i] < |s.mem| && InGroups(s.mem[ps[i]]))
  }

  lemma DropFirst(s: List, ps: seq<Ptr>)
    requires Wf(s) && Sound(Live(s), s.mem) && ps != [] && Deletable(s, ps)
    requires DeleteItem(s, s.mem[ps[0]]).found == Some(ps[0])
    ensures var s' := DeleteItem(s, s.mem[ps[0]]).list;
            && Live(s') == Live(s) - {ps[0]} && Sound(Live(s'), s'.mem) && Deletable(s', ps[1..])
            && forall g :: RootBefore(s', g) ==> RootBefore(s, g)
  {
    DeleteItemLive(s, s.mem[ps[0]]);
    var i := FirstMatch(s, s.mem[ps[0]]);
    forall g | RootBefore(Drop(s, i), g) ensures RootBefore(s, g) { RootBeforeUndropped(s, i, g); }
  }

  ghost predicate Untrapped(s: List, ps: seq<Ptr>)
    requires Wf(s)
  {
    forall i :: 0 <= i < |ps| ==> !Trap(s, ps[i])
  }

  lemma StillUntrapped(s: List, s': List, ps: seq<Ptr>)
    requires Wf(s) && Wf(s') && s'.mem == s.mem && ps != [] && Untrapped(s, ps)
    requires forall g :: RootBefore(s', g) ==> RootBefore(s, g)
    ensures Untrapped(s', ps[1..])
  {
    forall i | 0 <= i < |ps[1..]| ensures !Trap(s', ps[1..][i]) {
      assert ps[1..][i] == ps[i + 1] && !Trap(s, ps[i + 1]);
    }
  }

  lemma FirstGoes(s: List, ps: seq<Ptr>)
    requires Wf(s) && Sound(Live(s), s.mem) && ps != [] && Deletable(s, ps) && Untrapped(s, ps)
    ensures var s' := DeleteItem(s, s.mem[ps[0]]).list;
            && Live(s') == Live(s) - {ps[0]} && Sound(Live(s'), s'.mem)
            && Deletable(s', ps[1..]) && Untrapped(s', ps[1..])
  {
    assert !Trap(s, ps[0]);
    DeleteFinds(s, ps[0]);
    DropFirst(s, ps);
    StillUntrapped(s, DeleteItem(s, s.mem[ps[0]]).list, ps);
  }

  lemma {:induction false} DeleteAllExactly(s: List, ps: seq<Ptr>)
    requires Wf(s) && Sound(Live(s), s.mem) && Deletable(s, ps) && Untrapped(s, ps)
    ensures forall p :: p in Live(DeleteAll(s, ps)) <==> p in Live(s) && p !in ps
    decreases |ps|
  {
    if ps != [] {
      var s', rest := DeleteItem(s, s.mem[ps[0]]).list, ps[1..];
      FirstGoes(s, ps);
      DeleteAllExactly(s', rest);
      assert DeleteAll(s, ps) == DeleteAll(s', rest);
      assert ps == [ps[0]] + rest;
    }
  }

  // With the root before the unnamed group g, the root is deleted and g stays.
  lemma {:induction false} DeleteAllTakesRoot(s: List, ps: seq<Ptr>, g: Ptr)
    requires Wf(s) && Sound(Live(s), s.mem) && Deletable(s, ps)
    requires g in ps && Trap(s, g)
    requires forall i :: 0 <= i < |ps| && ps[i] != g ==> s.mem[ps[i]].classId == BUDDY
    ensures g in Live(DeleteAll(s, ps)) && !HasRoot(Live(DeleteAll(s, ps)), s.mem)
    decreases |ps|
  {
    DeleteFinds(s, ps[0]);
    var s' := DeleteItem(s, s.mem[ps[0]]).list;
    if ps[0] == g {
      TakeRoot(s, g);
      OthersDeletable(s, ps, g);
      DeleteAllExactly(s', ps[1..]);
    } else {
      DropFirst(s, ps);
      RootBeforeDropped(s, FirstMatch(s, s.mem[ps[0]]), g);
      DeleteAllTakesRoot(s', ps[1..], g);
    }
  }

  lemma OthersDeletable(s: List, ps: seq<Ptr>, g: Ptr)
    requires Wf(s) && Sound(Live(s), s.mem) && Deletable(s, ps) && ps != [] && ps[0] == g && Trap(s, g)
    requires forall i :: 0 <= i < |ps| && ps[i] != g ==> s.mem[ps[i]].classId == BUDDY
    ensures var s' := DeleteItem(s, s.mem[g]).list;
            Deletable(s', ps[1..]) && g !in ps[1..] && Untrapped(s', ps[1..])
  {
    DeleteFinds(s, g);
    DeleteItemLive(s, s.mem[g]);
    var s' := DeleteItem(s, s.mem[g]).list;
    forall i | 0 <= i < |ps[1..]|
      ensures ps[1..][i] in Live(s') && InGroups(s'.mem[ps[1..][i]]) && !Trap(s', ps[1..][i]) && ps[1..][i] != g
    {
      assert ps[1..][i] == ps[i + 1] && s.mem[ps[i + 1]].classId == BUDDY;
    }
  }

  lemma TakeRoot(s: List, g: Ptr)
    requires Wf(s) && Sound(Live(s), s.mem) && g in Live(s)
    requires s.mem[g].IsGroup() && s.mem[g].name == "" && RootBefore(s, g)
    ensures var s' := DeleteItem(s, s.mem[g]).list;
            g in Live(s') && Sound(Live(s'), s'.mem) && forall p :: p in Live(s') ==> !s'.mem[p].IsRoot()
  {
    DeleteFinds(s, g);
    DeleteItemLive(s, s.mem[g]);
    var q := DeleteItem(s, s.mem[g]).found.value;
    forall p | p in Live(s) && p != q ensures !s.mem[p].IsRoot() {
      assert !Clash(s.mem[p], s.mem[q]) && ItemOk(s.mem[p]) && ItemOk(s.mem[q]);
    }
  }

  // ---- The loop over the root items ----

  lemma {:induction false} NoRootsLeft(s: List, gid: u16, i: nat)
    requires Wf(s) && i <= |s.items| && forall j :: i <= j < |s.items| ==> !s.mem[s.items[j]].IsRoot()
    ensures RemoveFromRoots(s, gid, i) == s
    decreases |s.items| - i
  {
    if i < |s.items| { NoRootsLeft(s, gid, i + 1); }
  }

  lemma {:induction false} OneRootLeft(s: List, gid: u16, i: nat, k: nat)
    requires Wf(s) && i <= k < |s.items|
    requires forall j :: i <= j < |s.items| ==> (s.mem[s.items[j]].IsRoot() <==> j == k)
    ensures var r := RemoveFromRoots(s, gid, i);
            r.items == s.items && r.mem == s.mem[s.items[k] := RemoveMember(s.mem[s.items[k]], gid)]
    decreases k - i
  {
    if i == k {
      var p := s.items[k];
      NoRootsLeft(Track(Put(s, p, RemoveMember(s.mem[p], gid)), p), gid, i + 1);
    } else {
      OneRootLeft(s, gid, i + 1, k);
    }
  }

  lemma RootsEffect(s: List, gid: u16, root: Ptr)
    requires Wf(s) && Sound(Live(s), s.mem) && root in Live(s) && s.mem[root].IsRoot()
    ensures var r := RemoveFromRoots(s, gid, 0);
            r.items == s.items && r.mem == s.mem[root := RemoveMember(s.mem[root], gid)]
  {
    var k :| 0 <= k < |s.items| && s.items[k] == root;
    forall j | 0 <= j < |s.items| ensures s.mem[s.items[j]].IsRoot() <==> j == k {
      assert s.items[j] in Live(s) && ItemOk(s.mem[s.items[j]]) && ItemOk(s.mem[root]);
      if j != k { assert !Clash(s.mem[s.items[j]], s.mem[root]); }
    }
    OneRootLeft(s, gid, 0, k);
  }

  // ---- The theorem about DeleteGroup ----

  lemma MembersDeletable(s: List, g: Ptr)
    requires Ordered(s) && g in Live(s) && s.mem[g].IsGroup()
    ensures var ps := Members(s, s.mem[g].groupId, 0);
            && Deletable(s, ps) && g in ps
            && forall i :: 0 <= i < |ps| && ps[i] != g ==> s.mem[ps[i]].classId == BUDDY
  {
    var ps := Members(s, s.mem[g].groupId, 0);
    assert s.items[0..] == s.items;
    forall i | 0 <= i < |ps| ensures ps[i] in Live(s) && InGroups(s.mem[ps[i]])
      ensures ps[i] != g ==> s.mem[ps[i]].classId == BUDDY
    {
      assert ps[i] in ps && ItemOk(s.mem[ps[i]]) && ItemOk(s.mem[g]);
      if ps[i] != g { assert !Clash(s.mem[ps[i]], s.mem[g]); }
    }
  }

  // When it is safe, exactly the group and its buddies leave the list.
  lemma SafeDeletion(s: List, name: string)
    requires Ordered(s) && GroupByName(s, name).Some? && SafeToDelete(s, name)
    ensures Ordered(DeleteGroup(s, name))
    ensures var gid := s.mem[GroupByName(s, name).value].groupId;
            Live(DeleteGroup(s, name)) == set p | p in Live(s) && s.mem[p].groupId != gid
  {
    var g := GroupByName(s, name).value;
    var gid := s.mem[g].groupId;
    var ps := Members(s, gid, 0);
    assert s.items[0..] == s.items;
    MembersDeletable(s, g);
    forall i | 0 <= i < |ps| ensures !Trap(s, ps[i]) {}
    DeleteAllExactly(s, ps);
    var s1 := DeleteAll(s, ps);
    forall p ensures p in Live(s1) <==> p in Live(s) && s.mem[p].groupId != gid {
      assert p in ps <==> p in s.items && s.mem[p].groupId == gid;
    }
    DeletedGroup(s, g, s1);
  }

  // Once the items of a group are gone, taking its id out of the root restores the order.
  lemma DeletedGroup(s: List, g: Ptr, s1: List)
    requires Ordered(s) && g in Live(s) && s.mem[g].IsGroup() && Wf(s1) && s1.mem == s.mem
    requires forall p :: p in Live(s1) <==> p in Live(s) && s.mem[p].groupId != s.mem[g].groupId
    ensures var r := RemoveFromRoots(s1, s.mem[g].groupId, 0);
            Ordered(r) && Live(r) == set p | p in Live(s) && s.mem[p].groupId != s.mem[g].groupId
  {
    var gid := s.mem[g].groupId;
    var root := RootOf(s, g);
    UnrootedGroup(s, g, s1, root);
    assert Live(s1) == set p | p in Live(s) && s.mem[p].groupId != s.mem[g].groupId;
  }

  lemma RootOf(s: List, g: Ptr) returns (root: Ptr)
    requires Ordered(s) && g in Live(s) && s.mem[g].IsGroup()
    ensures root in Live(s) && root < |s.mem| && s.mem[root].IsRoot()
  {
    assert s.mem[g].groupId in GroupIds(Live(s), s.mem);
    root :| root in Live(s) && root < |s.mem| && s.mem[root].IsRoot();
  }

  lemma UnrootedGroup(s: List, g: Ptr, s1: List, root: Ptr)
    requires Ordered(s) && g in Live(s) && s.mem[g].IsGroup() && Wf(s1) && s1.mem == s.mem
    requires forall p :: p in Live(s1) <==> p in Live(s) && s.mem[p].groupId != s.mem[g].groupId
    requires root in Live(s) && root < |s.mem| && s.mem[root].IsRoot()
    ensures var r := RemoveFromRoots(s1, s.mem[g].groupId, 0); Ordered(r) && Live(r) == Live(s1)
  {
    RemoveGroup(Live(s), s.mem, Live(s1), root, s.mem[g].groupId);
    RootsEffect(s1, s.mem[g].groupId, root);
  }

  lemma UnsafeDeletion(s: List, name: string)
    requires Ordered(s) && GroupByName(s, name).Some? && !SafeToDelete(s, name)
    ensures !Ordered(DeleteGroup(s, name))
  {
    var g := GroupByName(s, name).value;
    var gid := s.mem[g].groupId;
    MembersDeletable(s, g);
    assert s.items[0..] == s.items;
    DeleteAllTakesRoot(s, Members(s, gid, 0), g);
    var s1 := DeleteAll(s, Members(s, gid, 0));
    forall j | 0 <= j < |s1.items| ensures !s1.mem[s1.items[j]].IsRoot() {
      assert s1.items[j] in Live(s1);
    }
    NoRootsLeft(s1, gid, 0);
    assert gid in GroupIds(Live(s1), s1.mem);
  }

  // DeleteGroup keeps the list ordered exactly when it is not asked for the unnamed group behind the root.
  lemma DeleteGroupExactly(s: List, name: string)
    requires Ordered(s)
    ensures Ordered(DeleteGroup(s, name)) <==> SafeToDelete(s, name)
  {
    if GroupByName(s, name).Some? {
      if SafeToDelete(s, name) { SafeDeletion(s, name); } else { UnsafeDeletion(s, name); }
    }
  }

  // ---- Runs ----

  ghost predicate Permitted(s: List, e: Edit)
    requires Wf(s)
  {
    Room(s) && Allowed(e) && (e.DeletingGroup? ==> SafeToDelete(s, e.name))
  }

  lemma GroupEditKeepsOrder(s: List, e: Edit, start: u16)
    requires Ordered(s) && Permitted(s, e)
    requires e.AddingGroup? || e.DeletingGroup? || e.RenamingGroup? || e.CollapsingGroup?
    ensures Ordered(Apply(s, e, start))
  {
    match e
    case AddingGroup(name) => AddGroupKeeps(s, name, start);
    case DeletingGroup(name) => DeleteGroupExactly(s, name);
    case RenamingGroup(o, n) => RenameGroupKeeps(s, o, n);
    case CollapsingGroup(name, c) => SetGroupCollapsedKeeps(s, name, c);
  }

  lemma OtherEditKeepsOrder(s: List, e: Edit, start: u16)
    requires Ordered(s) && Room(s) && Allowed(e) && (e.PuttingOther? || e.DeletingOther? || e.DeletingLinked?)
    ensures Ordered(Apply(s, e, start))
  {
    match e
    case PuttingOther(item) =>
      assert Apply(s, e, start) == UpsertItem(s, item, start).list;
      UpsertOther(s, item, start);
    case DeletingOther(item) =>
      assert Apply(s, e, start) == DeleteItem(s, item).list;
      DeleteOtherKeeps(s, item);
    case DeletingLinked(n) =>
      assert Apply(s, e, start) == DeleteLinked(s, n);
      DeleteLinkedKeeps(s, n);
  }

  lemma BuddyEditKeepsOrder(s: List, e: Edit, start: u16)
    requires Ordered(s) && Room(s) && Allowed(e)
    requires e.AddingBuddy? || e.DeletingBuddy? || e.MovingBuddy? || e.Aliasing?
    ensures Ordered(Apply(s, e, start))
  {
    match e
    case AddingBuddy(g, n, alias, note) => AddBuddyItemKeeps(s, g, n, Attributes(alias, note), start);
    case DeletingBuddy(g, n) => DeleteBuddyKeeps(s, g, n);
    case MovingBuddy(from, to, n, before) => MoveBuddyKeeps(s, from, to, n, before, start);
    case Aliasing(n, alias) => AliasKeeps(s, n, alias, 0);
  }

  lemma EditKeepsOrder(s: List, e: Edit, start: u16)
    requires Ordered(s) && Permitted(s, e)
    ensures Ordered(Apply(s, e, start))
  {
    if e.AddingGroup? || e.DeletingGroup? || e.RenamingGroup? || e.CollapsingGroup? {
      GroupEditKeepsOrder(s, e, start);
    } else if e.AddingBuddy? || e.DeletingBuddy? || e.MovingBuddy? || e.Aliasing? {
      BuddyEditKeepsOrder(s, e, start);
    } else {
      OtherEditKeepsOrder(s, e, start);
    }
  }

  const EMPTY := List([], [], [], [])

  // The list after a run of edits, each with its random start.
  function Run(s: List, es: seq<(Edit, u16)>): (r: List)
    requires Wf(s)
    ensures Wf(r)
    decreases |es|
  {
    if es == [] then s else Run(Apply(s, es[0].0, es[0].1), es[1..])
  }

  ghost predicate PermittedRun(s: List, es: seq<(Edit, u16)>)
    requires Wf(s)
    decreases |es|
  {
    es != [] ==> Permitted(s, es[0].0) && PermittedRun(Apply(s, es[0].0, es[0].1), es[1..])
  }

  lemma {:induction false} RunKeepsOrder(s: List, es: seq<(Edit, u16)>)
    requires Ordered(s) && PermittedRun(s, es)
    ensures Ordered(Run(s, es))
    decreases |es|
  {
    if es != [] {
      EditKeepsOrder(s, es[0].0, es[0].1);
      RunKeepsOrder(Apply(s, es[0].0, es[0].1), es[1..]);
    }
  }

  // After any permitted run from an empty list: each group's order lists exactly the item ids of its buddies once
  // each, the root's order lists exactly the group ids once each, no two items share a key, no two groups a name,
  // and no two buddies of a group a normalized name.
  lemma OrderAfterRun(es: seq<(Edit, u16)>)
    requires PermittedRun(EMPTY, es)
    ensures var s := Run(EMPTY, es);
            && (forall p :: p in Live(s) && s.mem[p].IsGroup() ==> Lists(s.mem[p], BuddyIds(Live(s), s.mem, s.mem[p].groupId)))
            && (forall p :: p in Live(s) && s.mem[p].IsRoot() ==> Lists(s.mem[p], GroupIds(Live(s), s.mem)))
            && (forall p, q :: p in Live(s) && q in Live(s) && p != q ==> !Clash(s.mem[p], s.mem[q]))
            && (forall p :: p in Live(s) ==> Stored(s.mem[p]) == s.mem[p])
            && (GroupIds(Live(s), s.mem) != {} ==> HasRoot(Live(s), s.mem))
  {
    RunKeepsOrder(EMPTY, es);
    var s := Run(EMPTY, es);
    forall p | p in Live(s) ensures Indexed(Live(s), s.mem, s.mem[p]) && ItemOk(s.mem[p]) {}
  }
}
