/** Reachable lists at which each exception of the buddy list happens: none of the exact conditions is idle. */
module FeedbagExamples {
  import opened Common
  import opened Tlv
  import opened FeedbagItems
  import opened FeedbagEdits
  import opened FeedbagOrder
  import opened FeedbagRuns
  import opened FeedbagDeletion
  import opened FeedbagSync
  import opened FeedbagReplay

  // ---- Replaying the logs ----

  const ROOT := Item("", 0, 0, GROUP, [TLV(ORDER, [0, 5])])
  const FRIENDS := Item("friends", 5, 0, GROUP, [TLV(ORDER, [0, 7])])
  const ANN := Item("ann", 5, 7, BUDDY, [])
  const SAMPLE := List([ROOT, FRIENDS, ANN], [0, 1, 2], [], [])

  const STORE: Store := map[(0, 0) := ROOT, (5, 0) := FRIENDS, (5, 7) := ANN]

  lemma SampleKeys()
    ensures Live(SAMPLE) == {0, 1, 2}
    ensures SAMPLE.mem[0] == ROOT && SAMPLE.mem[1] == FRIENDS && SAMPLE.mem[2] == ANN
    ensures KeysOf(SAMPLE.mem, {0, 1, 2}) == {(0, 0), (5, 0), (5, 7)}
  {
    var mem, ps: set<Ptr> := SAMPLE.mem, {0, 1, 2};
    assert mem[0].Key() in KeysOf(mem, ps) && mem[1].Key() in KeysOf(mem, ps) && mem[2].Key() in KeysOf(mem, ps);
    assert mem[0].Key() == (0, 0) && mem[1].Key() == (5, 0) && mem[2].Key() == (5, 7);
  }

  lemma SampleDistinct()
    ensures KeysDistinct(Live(SAMPLE), SAMPLE.mem)
  {
    SampleKeys();
  }

  lemma SampleStored()
    ensures Wf(SAMPLE) && Reflects(STORE, SAMPLE) && KeysDistinct(Live(SAMPLE), SAMPLE.mem)
  {
    SampleKeys();
    IdentOfAnn();
    SampleDistinct();
    assert Stored(ROOT) == ROOT && Stored(FRIENDS) == FRIENDS && Stored(ANN) == ANN;
    forall p | p in Live(SAMPLE)
      ensures SAMPLE.mem[p].Key() in STORE && STORE[SAMPLE.mem[p].Key()] == Stored(SAMPLE.mem[p])
    {
      if { case p == 0 => case p == 1 => case p == 2 => }
    }
  }

  lemma IdentOfAnn()
    ensures Ident("ann") == "ann"
  {
    assert "ann"[1..] == "nn" && "nn"[1..] == "n" && "n"[1..] == "";
    assert Ident("n") == "n" && Ident("nn") == "nn";
  }

  lemma IdentOfBob()
    ensures Ident("bob") == "bob"
  {
    assert "bob"[1..] == "ob" && "ob"[1..] == "b" && "b"[1..] == "";
    assert Ident("b") == "b" && Ident("ob") == "ob";
  }

  lemma TwoEdits(s: List, a: (Edit, u16), b: (Edit, u16))
    requires Wf(s)
    ensures Run(s, [a, b]) == Apply(Apply(s, a.0, a.1), b.0, b.1)
    ensures Room(s) && Room(Apply(s, a.0, a.1)) ==> RoomyRun(s, [a, b])
  {
    var s1 := Apply(s, a.0, a.1);
    assert [a, b][1..] == [b] && [b][1..] == [];
    assert Run(s1, [b]) == Apply(s1, b.0, b.1);
    assert Room(s1) ==> RoomyRun(s1, [b]);
  }

  // Ann is deleted and Bob added, and the random start happens to be Ann's old id: Bob gets her key, and replaying
  // the deletes last deletes his row.
  lemma ReuseLosesItem()
    ensures var r := Run(SAMPLE, [(DeletingBuddy("friends", "ann"), 0), (AddingBuddy("friends", "bob", [], []), 7)]);
      && Reflects(STORE, SAMPLE) && !Reflects(UpdatesThenDeletes(r, STORE), r)
      && 3 in Live(r) && r.mem[3].Key() == (5, 7) && r.mem[3].name == "bob"
      && (5, 7) !in UpdatesThenDeletes(r, STORE)
  {
    var del, add := DeletingBuddy("friends", "ann"), AddingBuddy("friends", "bob", [], []);
    var es := [(del, 0 as u16), (add, 7)];
    var s1 := Apply(SAMPLE, del, 0);
    SampleStored();
    SampleDelete();
    SampleAdd(s1);
    TwoEdits(SAMPLE, (del, 0), (add, 7));
    var r := Run(SAMPLE, es);
    assert 3 in Live(r) && 2 in Ptrs(r.deletes) && (5, 7) in LiveKeys(r) && (5, 7) in DeletedKeys(r);
    ReplayAfterRun(SAMPLE, STORE, es);
    DeleteSnapshot(r, UpsertRows(STORE, Snapshot(r.mem, r.updates)), (5, 7));
  }

  // Ann's alias is cleared, which logs her, and then she is deleted: replaying the updates last brings her back.
  lemma DeletedUpdateReturns()
    ensures var r := Run(SAMPLE, [(Aliasing("ann", []), 0), (DeletingBuddy("friends", "ann"), 0)]);
      && Reflects(STORE, SAMPLE) && !Reflects(DeletesThenUpdates(r, STORE), r)
      && (5, 7) !in LiveKeys(r) && (5, 7) in DeletesThenUpdates(r, STORE)
  {
    var alias, del := Aliasing("ann", []), DeletingBuddy("friends", "ann");
    var es := [(alias, 0 as u16), (del, 0)];
    SampleStored();
    TwoEdits(SAMPLE, (alias, 0), (del, 0));
    AliasedAndDeleted();
    var r := Run(SAMPLE, es);
    ReplayAfterRun(SAMPLE, STORE, es);
    UpsertSnapshot(r, DeleteRows(STORE, Snapshot(r.mem, r.deletes)), (5, 7));
  }

  lemma AliasedAndDeleted()
    ensures var s1 := Apply(SAMPLE, Aliasing("ann", []), 0);
      var r := Apply(s1, DeletingBuddy("friends", "ann"), 0);
      Room(s1) && (5, 7) in UpdatedKeys(r) && (5, 7) !in LiveKeys(r)
  {
    var s1 := Apply(SAMPLE, Aliasing("ann", []), 0);
    SampleAlias();
    DeleteAnn(s1);
    DeleteFromFriends(s1);
    LoggedButGone(DeleteFrom(s1, 1, "ann"));
  }

  lemma LoggedButGone(r: List)
    requires r.items == [0, 1] && |r.mem| == 3 && [2] <= r.updates
    requires r.mem[0].Key() == (0, 0) && r.mem[1].Key() == (5, 0) && r.mem[2].Key() == (5, 7)
    ensures (5, 7) in UpdatedKeys(r) && (5, 7) !in LiveKeys(r)
  {
    assert r.updates[0] == 2 && 2 in Ptrs(r.updates);
    assert Live(r) == {0, 1};
  }

  lemma AnnLogged()
    ensures AliasItem(SAMPLE, 2, "ann", []) == SAMPLE.(updates := [2])
  {
    IdentOfAnn();
    assert SAMPLE.mem[2] == ANN && Remove([], ALIAS) == [];
    assert SAMPLE.mem[2 := ANN] == SAMPLE.mem;
  }

  lemma SampleAlias()
    ensures Apply(SAMPLE, Aliasing("ann", []), 0) == SAMPLE.(updates := [2])
  {
    GroupSkipped(0);
    GroupSkipped(1);
    AnnLast();
  }

  lemma GroupSkipped(i: nat)
    requires i < 2
    ensures AliasFrom(SAMPLE, "ann", [], i) == AliasFrom(SAMPLE, "ann", [], i + 1)
  {
    assert SAMPLE.mem[i].classId == GROUP && SAMPLE.items[i] == i;
  }

  lemma AnnLast()
    ensures AliasFrom(SAMPLE, "ann", [], 2) == SAMPLE.(updates := [2])
  {
    var s1 := SAMPLE.(updates := [2]);
    AnnLogged();
    assert AliasFrom(s1, "ann", [], 3) == s1;
  }

  lemma FriendsFound(s: List)
    requires Wf(s) && |s.items| >= 2 && s.items[0] == 0 && s.items[1] == 1 && s.mem[0] == ROOT
    requires s.mem[1].IsGroup() && s.mem[1].name == "friends"
    ensures GroupByName(s, "friends") == Some(1)
  {
    var p := (x: Item) => x.IsGroup() && x.name == "friends";
    assert View(s)[0] == ROOT && View(s)[1] == s.mem[1] && p(View(s)[1]);
    assert First(View(s), p) == 1;
  }

  lemma SampleAdd(s1: List)
    requires Wf(s1) && s1.items == [0, 1] && s1.deletes == [2] && |s1.mem| == 3
    requires s1.mem[0] == ROOT && s1.mem[2] == ANN
    requires s1.mem[1].name == "friends" && s1.mem[1].Key() == (5, 0) && s1.mem[1].classId == GROUP
    ensures var s2 := Apply(s1, AddingBuddy("friends", "bob", [], []), 7);
            && 3 in s2.items && |s2.mem| == 4 && s2.mem[3].Key() == (5, 7) && s2.mem[3].name == "bob"
            && s2.deletes == [2] && s2.mem[2] == ANN
  {
    FriendsFound(s1);
    UpsertBob(s1);
    assert Attributes([], []) == [];
  }

  lemma UpsertBob(s1: List)
    requires Wf(s1) && s1.items == [0, 1] && |s1.mem| == 3 && s1.mem[0] == ROOT
    requires s1.mem[1].name == "friends" && s1.mem[1].Key() == (5, 0) && s1.mem[1].classId == GROUP
    ensures var up := UpsertItem(s1, Item("bob", 5, 0, BUDDY, []), 7);
      && up.inserted && up.ptr == 3 && up.list.items == [0, 1, 3] && up.list.deletes == s1.deletes
      && up.list.mem == s1.mem + [Item("bob", 5, 7, BUDDY, [])]
  {
    var item := Item("bob", 5, 0, BUDDY, []);
    IdentOfBob();
    assert View(s1) == [s1.mem[0], s1.mem[1]];
    assert !Used(View(s1), 7);
    assert Candidate(7, 0) == 7;
    assert GenId(View(s1), 7) == 7;
    assert FindMatch(s1, Stored(item)).None?;
  }

  lemma SampleDelete()
    ensures var s1 := Apply(SAMPLE, DeletingBuddy("friends", "ann"), 0);
            && s1.items == [0, 1] && s1.deletes == [2] && |s1.mem| == 3
            && s1.mem[0] == ROOT && s1.mem[2] == ANN
            && s1.mem[1].name == "friends" && s1.mem[1].Key() == (5, 0) && s1.mem[1].classId == GROUP
  {
    DeleteAnn(SAMPLE);
    DeleteFromFriends(SAMPLE);
  }

  lemma DeleteFromFriends(s: List)
    requires Wf(s) && |s.items| >= 2 && s.items[0] == 0 && s.items[1] == 1 && s.mem[0] == ROOT
    requires s.mem[1].IsGroup() && s.mem[1].name == "friends"
    ensures Apply(s, DeletingBuddy("friends", "ann"), 0) == DeleteFrom(s, 1, "ann")
  {
    FriendsFound(s);
    assert EVERYWHERE[0] != "friends"[0];
  }

  lemma DeleteAnn(s: List)
    requires Wf(s) && s.mem == [ROOT, FRIENDS, ANN] && s.items == [0, 1, 2] && s.deletes == []
    ensures var s1 := DeleteFrom(s, 1, "ann");
            && s1.items == [0, 1] && s1.deletes == [2] && |s1.mem| == 3 && s.updates <= s1.updates
            && s1.mem[0] == ROOT && s1.mem[2] == ANN && s1.mem[1] == RemoveMember(FRIENDS, 7)
            && s1.mem[1].name == "friends" && s1.mem[1].Key() == (5, 0) && s1.mem[1].classId == GROUP
  {
    AnnFound(s);
    RemoveMemberOrder(FRIENDS, 7);
    var s1 := Drop(s, 2);
    assert DeleteItem(s, Item("ann", 5, 0, BUDDY, [])) == Deleted(s1, Some(2));
    assert s1.items == [0, 1];
  }

  lemma AnnFound(s: List)
    requires Wf(s) && s.mem == [ROOT, FRIENDS, ANN] && s.items == [0, 1, 2]
    ensures FirstMatch(s, Item("ann", 5, 0, BUDDY, [])) == 2
  {
    var item := Item("ann", 5, 0, BUDDY, []);
    assert View(s)[0] == ROOT && View(s)[1] == FRIENDS && View(s)[2] == ANN;
    assert Matches(ANN, item) && !Matches(ROOT, item) && !Matches(FRIENDS, item);
  }

  // ---- Deleting the unnamed group ----

  // The groups "x" and "" are added to an empty list, which puts the root between them; deleting "" takes the root,
  // and the list is no longer ordered.
  lemma UnnamedGroupTakesRoot(a: u16, b: u16)
    ensures Ordered(Run(EMPTY, [(AddingGroup("x"), a), (AddingGroup(""), b)]))
    ensures !Ordered(Run(EMPTY, [(AddingGroup("x"), a), (AddingGroup(""), b), (DeletingGroup(""), 0)]))
  {
    TwoEdits(EMPTY, (AddingGroup("x"), a), (AddingGroup(""), b));
    ThreeEdits(EMPTY, (AddingGroup("x"), a), (AddingGroup(""), b), (DeletingGroup(""), 0));
    XAndUnnamed(a, b);
  }

  lemma XAndUnnamed(a: u16, b: u16)
    ensures var s2 := AddGroup(AddGroup(EMPTY, "x", a), "", b); Ordered(s2) && !Ordered(DeleteGroup(s2, ""))
  {
    var s1 := AddGroup(EMPTY, "x", a);
    XAdded(a);
    AddGroupKeeps(EMPTY, "x", a);
    UnnamedAdded(s1, b);
    AddGroupKeeps(s1, "", b);
    DeleteGroupExactly(AddGroup(s1, "", b), "");
  }

  lemma ThreeEdits(s: List, a: (Edit, u16), b: (Edit, u16), c: (Edit, u16))
    requires Wf(s)
    ensures Run(s, [a, b, c]) == Apply(Apply(Apply(s, a.0, a.1), b.0, b.1), c.0, c.1)
  {
    assert [a, b, c][1..] == [b, c];
    TwoEdits(Apply(s, a.0, a.1), b, c);
  }

  lemma XAdded(a: u16)
    ensures Ordered(EMPTY) && Room(EMPTY)
    ensures var s := AddGroup(EMPTY, "x", a);
      |s.mem| == 2 && s.items == [0, 1] && s.mem[0].name == "x" && s.mem[0].IsGroup() && s.mem[1].IsRoot()
  {
    EmptyIsOrdered();
    FreshId(EMPTY, a);
    FirstGroup(Item("x", GenId(View(EMPTY), a), 0, GROUP, []));
  }

  lemma EmptyIsOrdered()
    ensures Ordered(EMPTY) && Room(EMPTY) && GroupByName(EMPTY, "x").None?
  {
  }

  lemma FirstGroup(x: Item)
    requires x.IsGroup()
    ensures var s := EnrollGroup(EMPTY, x);
      |s.mem| == 2 && s.items == [0, 1] && s.mem[0] == x && s.mem[1].IsRoot()
  {
    var s1 := Append(EMPTY, x);
    assert s1.items == [0] && s1.mem == [x];
    EnrollEffect(EMPTY, x);
    assert ([] + [x] + [AppendMember(NEW_ROOT, x.groupId)])[1] == AppendMember(NEW_ROOT, x.groupId);
  }

  lemma UnnamedAdded(s: List, b: u16)
    requires Ordered(s) && |s.mem| == 2 && s.items == [0, 1]
    requires s.mem[0].name == "x" && s.mem[0].IsGroup() && s.mem[1].IsRoot()
    ensures !SafeToDelete(AddGroup(s, "", b), "")
  {
    FreshId(s, b);
    var g := Item("", GenId(View(s), b), 0, GROUP, []);
    assert GroupByName(s, "").None? by { assert "x" != ""; }
    UnnamedEffect(s, g);
    UnnamedUnsafe(AddGroup(s, "", b));
  }

  lemma UnnamedEffect(s: List, g: Item)
    requires Wf(s) && |s.mem| == 2 && s.items == [0, 1] && s.mem[0].IsGroup() && s.mem[1].IsRoot() && g.IsGroup()
    ensures var r := EnrollGroup(s, g);
      r.items == [0, 1, 2] && |r.mem| == 3 && r.mem[0] == s.mem[0] && r.mem[2] == g && r.mem[1].IsRoot()
  {
    var s1 := Append(s, g);
    assert s1.items == [0, 1, 2] && s1.mem[1] == s.mem[1] && s1.mem[0] == s.mem[0] && s1.mem[2] == g;
    SecondIsRoot(s1);
    EnrollEffect(s, g);
  }

  lemma SecondIsRoot(s: List)
    requires Wf(s) && |s.mem| == 3 && s.items == [0, 1, 2]
    requires s.mem[0].IsGroup() && s.mem[1].IsRoot() && s.mem[2].IsGroup()
    ensures FindRoot(s) == Some(1)
  {
  }

  lemma UnnamedUnsafe(r: List)
    requires Wf(r) && r.items == [0, 1, 2] && |r.mem| == 3 && r.mem[0].name == "x" && r.mem[1].IsRoot()
    requires r.mem[2].IsGroup() && r.mem[2].name == ""
    ensures !SafeToDelete(r, "")
  {
    assert r.mem[0].name != r.mem[2].name by { assert |r.mem[0].name| == 1; }
    assert 2 in r.items;
    assert GroupByName(r, "") == Some(2);
    assert r.items[2] == 2 && r.mem[r.items[1]].IsRoot();
  }
}
