/** Replaying the pending logs: exactly when the store comes out equal to the list, in both orders of replay. */
module FeedbagReplay {
  import opened Tlv
  import opened FeedbagItems
  import opened FeedbagEdits
  import opened FeedbagOrder
  import opened FeedbagDeletion
  import opened FeedbagSync

  // ---- What the two table operations leave under one key ----

  lemma {:induction false} UpsertMisses(store: Store, items: seq<Item>, k: Key)
    requires forall i :: 0 <= i < |items| ==> items[i].Key() != k
    ensures k in UpsertRows(store, items) <==> k in store
    ensures k in store ==> UpsertRows(store, items)[k] == store[k]
    decreases |items|
  {
    if items != [] { UpsertMisses(store[items[0].Key() := Stored(items[0])], items[1..], k); }
  }

  lemma {:induction false} UpsertKeeps(store: Store, items: seq<Item>, k: Key)
    requires k in store || exists i :: 0 <= i < |items| && items[i].Key() == k
    ensures k in UpsertRows(store, items)
    decreases |items|
  {
    if items != [] {
      var store' := store[items[0].Key() := Stored(items[0])];
      if k !in store' {
        var i :| 0 <= i < |items| && items[i].Key() == k;
        assert items[1..][i - 1] == items[i];
      }
      UpsertKeeps(store', items[1..], k);
    }
  }

  // The last row upserted under a key is the one that stays.
  lemma {:induction false} UpsertLast(store: Store, items: seq<Item>, i: nat)
    requires i < |items| && forall j :: i < j < |items| ==> items[j].Key() != items[i].Key()
    ensures items[i].Key() in UpsertRows(store, items)
    ensures UpsertRows(store, items)[items[i].Key()] == Stored(items[i])
    decreases |items|
  {
    var store' := store[items[0].Key() := Stored(items[0])];
    if i == 0 {
      UpsertMisses(store', items[1..], items[0].Key());
    } else {
      assert items[1..][i - 1] == items[i];
      UpsertLast(store', items[1..], i - 1);
    }
  }

  lemma {:induction false} DeleteEffect(store: Store, items: seq<Item>, k: Key)
    ensures k in DeleteRows(store, items) <==> k in store && forall i :: 0 <= i < |items| ==> items[i].Key() != k
    ensures k in DeleteRows(store, items) ==> DeleteRows(store, items)[k] == store[k]
    decreases |items|
  {
    if items != [] {
      DeleteEffect(store - {items[0].Key()}, items[1..], k);
      assert (forall i :: 0 <= i < |items| ==> items[i].Key() != k)
        <==> items[0].Key() != k && forall i :: 0 <= i < |items[1..]| ==> items[1..][i].Key() != k by {
        assert forall i :: 1 <= i < |items| ==> items[1..][i - 1] == items[i];
      }
    }
  }

  // ---- The logs' keys ----

  lemma SnapshotKeys(mem: seq<Item>, log: seq<Ptr>, k: Key)
    requires forall i :: 0 <= i < |log| ==> log[i] < |mem|
    ensures k in KeysOf(mem, Ptrs(log)) <==> exists i :: 0 <= i < |log| && Snapshot(mem, log)[i].Key() == k
  {
    if k in KeysOf(mem, Ptrs(log)) {
      var p :| p in Ptrs(log) && p < |mem| && mem[p].Key() == k;
      var i :| 0 <= i < |log| && log[i] == p;
      assert Snapshot(mem, log)[i].Key() == k;
    }
    if i :| 0 <= i < |log| && Snapshot(mem, log)[i].Key() == k {
      assert log[i] in Ptrs(log) && mem[log[i]].Key() == k;
    }
  }

  ghost function LiveKeys(s: List): set<Key> { KeysOf(s.mem, Live(s)) }
  ghost function DeletedKeys(s: List): set<Key> { KeysOf(s.mem, Ptrs(s.deletes)) }
  ghost function UpdatedKeys(s: List): set<Key> { KeysOf(s.mem, Ptrs(s.updates)) }

  // Upserting the logged updates leaves a live, logged item under its key.
  lemma LoggedSurvives(s: List, base: Store, start: Store, p: Ptr)
    requires Tracks(s, base, {}) && p in Live(s) && p in s.updates
    ensures var r := UpsertRows(start, Snapshot(s.mem, s.updates));
            s.mem[p].Key() in r && r[s.mem[p].Key()] == Stored(s.mem[p])
  {
    var i :| 0 <= i < |s.updates| && s.updates[i] == p;
    var items := Snapshot(s.mem, s.updates);
    assert items[i] == s.mem[p];
    forall j | i < j < |items| ensures items[j].Key() != items[i].Key() {
      assert items[j] == s.mem[s.updates[j]];
    }
    UpsertLast(start, items, i);
  }

  lemma UpsertSnapshot(s: List, start: Store, k: Key)
    requires Wf(s)
    ensures var r := UpsertRows(start, Snapshot(s.mem, s.updates));
            && (k in r <==> k in start || k in UpdatedKeys(s))
            && (k in start && k !in UpdatedKeys(s) ==> r[k] == start[k])
  {
    var items := Snapshot(s.mem, s.updates);
    SnapshotKeys(s.mem, s.updates, k);
    if k in start || k in UpdatedKeys(s) { UpsertKeeps(start, items, k); }
    if k !in UpdatedKeys(s) { UpsertMisses(start, items, k); }
  }

  lemma DeleteSnapshot(s: List, start: Store, k: Key)
    requires Wf(s)
    ensures var r := DeleteRows(start, Snapshot(s.mem, s.deletes));
            && (k in r <==> k in start && k !in DeletedKeys(s))
            && (k in r ==> r[k] == start[k])
  {
    DeleteEffect(start, Snapshot(s.mem, s.deletes), k);
    SnapshotKeys(s.mem, s.deletes, k);
  }

  // An item that is not logged has a key that no logged item has.
  lemma UnloggedKey(s: List, base: Store, p: Ptr)
    requires Tracks(s, base, {}) && p in Live(s) && p !in s.updates
    ensures s.mem[p].Key() !in UpdatedKeys(s)
  {
    forall q | q in Ptrs(s.updates) ensures s.mem[q].Key() != s.mem[p].Key() {
      assert q in Live(s) || q in Ptrs(s.deletes);
    }
  }

  lemma UpdatedIsLiveOrDeleted(s: List, base: Store)
    requires Tracks(s, base, {})
    ensures UpdatedKeys(s) <= LiveKeys(s) + DeletedKeys(s)
  {
    forall k | k in UpdatedKeys(s) ensures k in LiveKeys(s) + DeletedKeys(s) {
      var q :| q in Ptrs(s.updates) && q < |s.mem| && s.mem[q].Key() == k;
      assert q in Live(s) || q in Ptrs(s.deletes);
    }
  }

  // ---- The two orders of replay ----

  function UpdatesThenDeletes(s: List, base: Store): Store
    requires Wf(s)
  {
    DeleteRows(UpsertRows(base, Snapshot(s.mem, s.updates)), Snapshot(s.mem, s.deletes))
  }

  function DeletesThenUpdates(s: List, base: Store): Store
    requires Wf(s)
  {
    UpsertRows(DeleteRows(base, Snapshot(s.mem, s.deletes)), Snapshot(s.mem, s.updates))
  }

  // Updates first: the store equals the list exactly when no new item took the key of a deleted one.
  lemma UpdatesFirstExactly(s: List, base: Store)
    requires Tracks(s, base, {})
    ensures Reflects(UpdatesThenDeletes(s, base), s) <==> LiveKeys(s) !! DeletedKeys(s)
  {
    var mid := UpsertRows(base, Snapshot(s.mem, s.updates));
    var r := UpdatesThenDeletes(s, base);
    forall k ensures k in r <==> k in mid && k !in DeletedKeys(s) { DeleteSnapshot(s, mid, k); }
    if LiveKeys(s) !! DeletedKeys(s) {
      forall p | p in Live(s) ensures s.mem[p].Key() in r && r[s.mem[p].Key()] == Stored(s.mem[p]) {
        var k := s.mem[p].Key();
        assert k in LiveKeys(s);
        if p in s.updates {
          LoggedSurvives(s, base, base, p);
        } else {
          UnloggedKey(s, base, p);
          UpsertSnapshot(s, base, k);
        }
        DeleteSnapshot(s, mid, k);
      }
      UpdatedIsLiveOrDeleted(s, base);
      forall k | k in r ensures k in LiveKeys(s) { UpsertSnapshot(s, base, k); }
      assert r.Keys == LiveKeys(s);
    } else {
      var k :| k in LiveKeys(s) && k in DeletedKeys(s);
      assert k !in r.Keys;
    }
  }

  // Deletes first: the store equals the list exactly when every logged update is under the key of a live item, so
  // an item updated and then deleted between two replays comes back.
  lemma DeletesFirstExactly(s: List, base: Store)
    requires Tracks(s, base, {})
    ensures Reflects(DeletesThenUpdates(s, base), s) <==> UpdatedKeys(s) <= LiveKeys(s)
  {
    var mid := DeleteRows(base, Snapshot(s.mem, s.deletes));
    var r := DeletesThenUpdates(s, base);
    forall k ensures k in r <==> k in mid || k in UpdatedKeys(s) { UpsertSnapshot(s, mid, k); }
    if UpdatedKeys(s) <= LiveKeys(s) {
      forall p | p in Live(s) ensures s.mem[p].Key() in r && r[s.mem[p].Key()] == Stored(s.mem[p]) {
        var k := s.mem[p].Key();
        if p in s.updates {
          LoggedSurvives(s, base, mid, p);
        } else {
          UnloggedKey(s, base, p);
          DeleteSnapshot(s, base, k);
          UpsertSnapshot(s, mid, k);
        }
      }
      forall k | k in r ensures k in LiveKeys(s) { DeleteSnapshot(s, base, k); }
      assert r.Keys == LiveKeys(s);
    } else {
      var k :| k in UpdatedKeys(s) && k !in LiveKeys(s);
      assert k in r.Keys;
    }
  }

  // A store that reflects the list is a good starting point for the next edits, with both logs empty.
  lemma FreshStart(s: List, store: Store)
    requires Reflects(store, s) && KeysDistinct(Live(s), s.mem)
    ensures Tracks(s.(updates := [], deletes := []), store, {})
  {
    var s' := s.(updates := [], deletes := []);
    assert Live(s') == Live(s) && Ptrs([]) == {};
  }

  // From a list that equals its store, after any run of edits that leaves genID room: replaying the updates and
  // then the deletes makes the store equal to the list exactly when no new item took a deleted item's key;
  // replaying them the other way round does so exactly when no update is logged under a key that has left.
  lemma ReplayAfterRun(s: List, store: Store, es: seq<(Edit, u16)>)
    requires s.updates == [] && s.deletes == [] && Reflects(store, s) && KeysDistinct(Live(s), s.mem)
    requires RoomyRun(s, es)
    ensures var r := Run(s, es);
            && (Reflects(UpdatesThenDeletes(r, store), r) <==> LiveKeys(r) !! DeletedKeys(r))
            && (Reflects(DeletesThenUpdates(r, store), r) <==> UpdatedKeys(r) <= LiveKeys(r))
  {
    FreshStart(s, store);
    RunTracks(s, store, es);
    UpdatesFirstExactly(Run(s, es), store);
    DeletesFirstExactly(Run(s, es), store);
  }
}
