/** What the relationship query says, read off the tables: who is related, who blocks whom and who is on whose list. */
module RelationshipTables {
  import opened Common
  import opened Tlv
  import opened Relationship

  // ---- One user's list, from the rows of the tables ----

  // The user has registered a list and keeps it on the server.
  predicate OnFeedbag(db: DB, user: Name) {
    user in db.modes && db.modes[user].useFeedbag
  }

  // A row of the user's stored list with the class and the name.
  ghost predicate Stores(db: DB, user: Name, other: Name, classId: u16) {
    exists k :: k in db.feedbag && k.screenName == user && db.feedbag[k].name == other && db.feedbag[k].classId
        == classId
  }

  // The same, of a buddy whose authorization is not pending.
  ghost predicate StoresBuddy(db: DB, user: Name, other: Name) {
    exists k :: k in db.feedbag && k.screenName == user && db.feedbag[k].name == other
                && db.feedbag[k].classId == 0 && !db.feedbag[k].authPending
  }

  predicate Flagged(db: DB, user: Name, other: Name) { Pair(user, other) in db.client }

  ghost predicate Befriends(db: DB, user: Name, other: Name) {
    || (Flagged(db, user, other) && db.client[Pair(user, other)].isBuddy)
    || (OnFeedbag(db, user) && StoresBuddy(db, user, other))
  }

  ghost predicate Permits(db: DB, user: Name, other: Name) {
    || (Flagged(db, user, other) && db.client[Pair(user, other)].isPermit)
    || (OnFeedbag(db, user) && Stores(db, user, other, 2))
  }

  ghost predicate Denies(db: DB, user: Name, other: Name) {
    || (Flagged(db, user, other) && db.client[Pair(user, other)].isDeny)
    || (OnFeedbag(db, user) && Stores(db, user, other, 3))
  }

  // Some row of the user is about the other one, pending buddies included.
  ghost predicate Mentions(db: DB, user: Name, other: Name) {
    || Flagged(db, user, other)
    || (OnFeedbag(db, user) && (Stores(db, user, other, 0) || Stores(db, user, other, 2) || Stores(db, user, other, 3)))
  }

  // A user in the mode blocks another one, given the user's list.
  ghost predicate BlocksInMode(db: DB, mode: nat, user: Name, other: Name) {
    || mode == 2
    || (mode == 3 && !Permits(db, user, other))
    || (mode == 4 && Denies(db, user, other))
    || (mode == 5 && !Befriends(db, user, other))
  }

  // The user's stored privacy items.
  predicate PrivacyItem(db: DB, user: Name, k: FeedbagKey) {
    k in db.feedbag && k.screenName == user && db.feedbag[k].classId == 4
  }

  // ---- What the subqueries find ----

  lemma YourFlags(db: DB, me: Name, n: Name)
    ensures YourList(db, me, None, n).Some? <==> Mentions(db, me, n)
    ensures var l := YourList(db, me, None, n);
      l.Some? ==> (l.value.isBuddy <==> Befriends(db, me, n))
                  && (l.value.isPermit <==> Permits(db, me, n))
                  && (l.value.isDeny <==> Denies(db, me, n))
  {
    var group := set k | k in db.feedbag && OnList(db, k) && k.screenName == me
                         && Passes(None, db.feedbag[k].name) && db.feedbag[k].name == n;
    StoredFlags(db, me, n, group);
  }

  lemma StoredFlags(db: DB, me: Name, n: Name, group: set<FeedbagKey>)
    requires group == set k | k in db.feedbag && OnList(db, k) && k.screenName == me
                              && Passes(None, db.feedbag[k].name) && db.feedbag[k].name == n
    ensures group != {} <==>
              OnFeedbag(db, me) && (Stores(db, me, n, 0) || Stores(db, me, n, 2) || Stores(db, me, n, 3))
    ensures Grouped(db, group).isBuddy <==> OnFeedbag(db, me) && StoresBuddy(db, me, n)
    ensures Grouped(db, group).isPermit <==> OnFeedbag(db, me) && Stores(db, me, n, 2)
    ensures Grouped(db, group).isDeny <==> OnFeedbag(db, me) && Stores(db, me, n, 3)
  {
    forall k ensures k in group <==>
      k in db.feedbag && k.screenName == me && db.feedbag[k].name == n && db.feedbag[k].classId in {0, 2, 3}
      && OnFeedbag(db, me) {}
    if OnFeedbag(db, me) {
      if k :| k in db.feedbag && k.screenName == me && db.feedbag[k].name == n && db.feedbag[k].classId in {0, 2, 3} {
        assert k in group;
      }
    }
  }

  lemma TheirFlags(db: DB, me: Name, u: Name)
    ensures TheirList(db, me, None, u) == YourList(db, u, None, me)
  {
    ListsMirror(db, me, u);
  }

  // ---- The query ----

  // Two users have a row if and only if both have registered a list and one of the two has a row about the other.
  lemma RelatedExactly(db: DB, me: Name, them: Name)
    ensures (exists a, b :: HasRow(db, me, None, Row(them, a, b)))
       <==> me in db.modes && them in db.modes && (Mentions(db, me, them) || Mentions(db, them, me))
  {
    YourFlags(db, me, them);
    YourFlags(db, them, me);
    TheirFlags(db, me, them);
    if me in db.modes && them in db.modes && (Mentions(db, me, them) || Mentions(db, them, me)) {
      var a := SomePref(db, them);
      var b := SomePref(db, me);
      assert HasRow(db, me, None, Row(them, a, b));
    }
  }

  lemma SomePref(db: DB, u: Name) returns (p: Option<FeedbagKey>)
    ensures p in PrefRows(db, u)
  {
    if PrivacyItems(db, u) == {} {
      p := None;
    } else {
      var k :| k in PrivacyItems(db, u);
      p := Some(k);
    }
  }

  // The privacy items of a row are the two users', and there is none only when the user has none.
  lemma PrefsExactly(db: DB, me: Name, them: Name, a: Option<FeedbagKey>, b: Option<FeedbagKey>)
    requires HasRow(db, me, None, Row(them, a, b))
    ensures if a.Some? then PrivacyItem(db, them, a.value) else forall k :: !PrivacyItem(db, them, k)
    ensures if b.Some? then PrivacyItem(db, me, b.value) else forall k :: !PrivacyItem(db, me, k)
  {
    if a.None? { forall k ensures !PrivacyItem(db, them, k) { assert k !in PrivacyItems(db, them); } }
    if b.None? { forall k ensures !PrivacyItem(db, me, k) { assert k !in PrivacyItems(db, me); } }
  }

  // The mode of a user in a row: that of the stored privacy item for a user on feedbag, without one the mode that
  // permits all, and the client's mode for a user who is not.
  function ModeIn(db: DB, user: Name, item: Option<FeedbagKey>): nat
    requires user in db.modes && (item.Some? ==> item.value in db.feedbag)
  {
    if !db.modes[user].useFeedbag then db.modes[user].clientSidePDMode
    else match item
      case Some(k) => db.feedbag[k].pdMode
      case None => 1
  }

  // What a row says: each of its four columns from the rows of the tables.
  lemma RowFromTables(db: DB, me: Name, them: Name, a: Option<FeedbagKey>, b: Option<FeedbagKey>)
    requires HasRow(db, me, None, Row(them, a, b))
    ensures b.Some? ==> b.value in db.feedbag
    ensures a.Some? ==> a.value in db.feedbag
    ensures var r := RelOf(db, me, None, Row(them, a, b));
      && (r.youBlock <==> BlocksInMode(db, ModeIn(db, me, b), me, them))
      && (r.blocksYou <==> BlocksInMode(db, ModeIn(db, them, a), them, me))
      && (r.isOnYourList <==> Befriends(db, me, them))
      && (r.isOnTheirList <==> Befriends(db, them, me))
  {
    TheirFlags(db, me, them);
    PrefsExactly(db, me, them, a, b);
    SideFromTables(db, me, them, b);
    SideFromTables(db, them, me, a);
  }

  // One user's side of a row.
  lemma SideFromTables(db: DB, user: Name, other: Name, pref: Option<FeedbagKey>)
    requires user in db.modes && pref in PrefRows(db, user) && (pref.Some? ==> pref.value in db.feedbag)
    ensures var l := YourList(db, user, None, other);
      && (Blocks(PdMode(db, user, pref), l) <==> BlocksInMode(db, ModeIn(db, user, pref), user, other))
      && (IfNull(BuddyOf(l), false) <==> Befriends(db, user, other))
  {
    YourFlags(db, user, other);
    NotMentioned(db, user, other);
    assert PdMode(db, user, pref) == ModeIn(db, user, pref);
  }

  lemma NotMentioned(db: DB, user: Name, other: Name)
    ensures !Mentions(db, user, other) ==>
              !Befriends(db, user, other) && !Permits(db, user, other) && !Denies(db, user, other)
  {
  }

  // For a user on feedbag with one privacy item, of mode m: each row about another user says that the user blocks the
  // other one if and only if m is 2, or 3 and no permit row or flag names the other one, or 4 and a deny row or flag
  // does, or 5 and no buddy row that is not pending and no buddy flag does. Without an item nobody is blocked.
  lemma FeedbagUserBlocks(db: DB, me: Name, them: Name, a: Option<FeedbagKey>, b: Option<FeedbagKey>, item: FeedbagKey)
    requires HasRow(db, me, None, Row(them, a, b)) && db.modes[me].useFeedbag
    ensures (forall k :: !PrivacyItem(db, me, k)) ==> !RelOf(db, me, None, Row(them, a, b)).youBlock
    ensures item in db.feedbag && (forall k :: PrivacyItem(db, me, k) <==> k == item) ==>
              (RelOf(db, me, None, Row(them, a, b)).youBlock <==> BlocksInMode(db, db.feedbag[item].pdMode, me, them))
  {
    RowFromTables(db, me, them, a, b);
    PrefsExactly(db, me, them, a, b);
    if b.Some? { assert PrivacyItem(db, me, b.value); }
    if forall k :: PrivacyItem(db, me, k) <==> k == item {
      assert PrivacyItem(db, me, item);
      assert b == Some(item);
    }
  }

  // Ann lets through those on her list only, and Bob is on it: she does not block him.
  lemma ListedIsLetThrough()
    ensures var db := DB(map[FeedbagKey("ann", 0, 1) := FeedbagRow(4, "", 5, false),
                             FeedbagKey("ann", 5, 7) := FeedbagRow(0, "bob", 0, false)],
                         map["ann" := Mode(1, true), "bob" := Mode(1, false)], map[]);
      var row := Row("bob", None, Some(FeedbagKey("ann", 0, 1)));
      HasRow(db, "ann", None, row) && !RelOf(db, "ann", None, row).youBlock && RelOf(db, "ann", None, row).isOnYourList
  {
    var item, bob := FeedbagKey("ann", 0, 1), FeedbagKey("ann", 5, 7);
    var db := DB(map[item := FeedbagRow(4, "", 5, false), bob := FeedbagRow(0, "bob", 0, false)],
                 map["ann" := Mode(1, true), "bob" := Mode(1, false)], map[]);
    assert bob in db.feedbag && item in db.feedbag;
    assert StoresBuddy(db, "ann", "bob") && Stores(db, "ann", "bob", 0);
    YourFlags(db, "ann", "bob");
    assert item in PrivacyItems(db, "ann") && PrivacyItems(db, "ann") == {item} && PrivacyItems(db, "bob") == {};
    RowFromTables(db, "ann", "bob", None, Some(item));
  }

  // Related users are those with a row.
  lemma RelatedMeans(db: DB, me: Name, them: Name)
    ensures Related(db, me, them)
       <==> me in db.modes && them in db.modes && (Mentions(db, me, them) || Mentions(db, them, me))
  {
    YourFlags(db, me, them);
    YourFlags(db, them, me);
    TheirFlags(db, me, them);
  }

  // What is answered about one user: all false when the two have no row, and otherwise what a row says, of the mode of
  // some privacy item of each, or of none when there is none.
  lemma AnswerFromTables(db: DB, me: Name, them: Name, r: Rel)
    ensures !Related(db, me, them) ==> (Answers(db, me, them, r) <==> r == Rel(false, false, false, false))
    ensures Related(db, me, them) ==>
              (Answers(db, me, them, r) <==> exists a, b :: SaidOf(db, me, them, a, b, r))
  {
    OneName(them);
    RelatedMeans(db, me, them);
    RelatedExactly(db, me, them);
    forall q: Row ensures Returns(db, me, [them], q) <==> q.user == them && HasRow(db, me, None, q) {
      FilterExact(db, me, {them}, q);
    }
    forall q: Row ensures Returns(db, me, [them], q) ==> Related(db, me, them) {
      if Returns(db, me, [them], q) { assert q == Row(them, q.theirPref, q.yourPref); }
    }
    if Related(db, me, them) {
      var a, b :| HasRow(db, me, None, Row(them, a, b));
      assert Returns(db, me, [them], Row(them, a, b));
      if Answers(db, me, them, r) {
        var q :| Returns(db, me, [them], q) && r == RelOf(db, me, FilterOf([them]), q);
        FilterExact(db, me, {them}, q);
        RowFromTables(db, me, them, q.theirPref, q.yourPref);
        assert SaidOf(db, me, them, q.theirPref, q.yourPref, r);
      }
      if c, d :| SaidOf(db, me, them, c, d, r) {
        FilterExact(db, me, {them}, Row(them, c, d));
        RowFromTables(db, me, them, c, d);
        assert Returns(db, me, [them], Row(them, c, d));
      }
    }
  }

  // The answer that goes with a privacy item of each user, or with none.
  ghost predicate SaidOf(db: DB, me: Name, them: Name, a: Option<FeedbagKey>, b: Option<FeedbagKey>, r: Rel) {
    && HasRow(db, me, None, Row(them, a, b))
    && (a.Some? ==> a.value in db.feedbag) && (b.Some? ==> b.value in db.feedbag)
    && (r.youBlock <==> BlocksInMode(db, ModeIn(db, me, b), me, them))
    && (r.blocksYou <==> BlocksInMode(db, ModeIn(db, them, a), them, me))
    && (r.isOnYourList <==> Befriends(db, me, them))
    && (r.isOnTheirList <==> Befriends(db, them, me))
  }
}
