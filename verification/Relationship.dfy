/**
 Who is related to whom and who blocks whom: one SELECT over three tables, with SQL's three-valued logic. A table with
 a primary key is a map from the key.
 */
module Relationship {
  import opened Common
  import opened Tlv
  import opened FeedbagItems

  type Name = string

  // feedbag
  datatype FeedbagKey = FeedbagKey(screenName: Name, groupId: u16, itemId: u16)
  datatype FeedbagRow = FeedbagRow(classId: u16, name: Name, pdMode: nat, authPending: bool)

  // buddyListMode
  datatype Mode = Mode(clientSidePDMode: nat, useFeedbag: bool)

  // clientSideBuddyList
  datatype Pair = Pair(me: Name, them: Name)
  datatype Flags = Flags(isBuddy: bool, isPermit: bool, isDeny: bool)

  datatype DB = DB(feedbag: map<FeedbagKey, FeedbagRow>, modes: map<Name, Mode>, client: map<Pair, Flags>)

  const PERMIT_ALL: nat := 1
  const DENY_ALL: nat := 2
  const PERMIT_SOME: nat := 3
  const DENY_SOME: nat := 4
  const PERMIT_ON_LIST: nat := 5

  // ---- Three-valued logic: None is NULL ----

  type Tri = Option<bool>

  function Or(a: Tri, b: Tri): Tri {
    if a == Some(true) || b == Some(true) then Some(true)
    else if a.None? || b.None? then None
    else Some(false)
  }

  function IfNull(a: Tri, b: bool): bool {
    match a case Some(v) => v case None => b
  }

  // The columns of a joined row; a missing row has NULL in all of them.
  function BuddyOf(f: Option<Flags>): Tri { if f.Some? then Some(f.value.isBuddy) else None }
  function PermitOf(f: Option<Flags>): Tri { if f.Some? then Some(f.value.isPermit) else None }
  function DenyOf(f: Option<Flags>): Tri { if f.Some? then Some(f.value.isDeny) else None }

  // ---- The subqueries ----

  predicate UsesFeedbag(db: DB, user: Name) {
    user in db.modes && db.modes[user].useFeedbag
  }

  predicate Passes(filter: Option<set<Name>>, n: Name) {
    filter.None? || n in filter.value
  }

  predicate OnList(db: DB, k: FeedbagKey) {
    k in db.feedbag && db.feedbag[k].classId in {BUDDY, PERMIT, DENY} && UsesFeedbag(db, k.screenName)
  }

  // The maximum over a group of rows of a 0/1 column is 1 when one of them has it.
  ghost function Grouped(db: DB, group: set<FeedbagKey>): Flags
    requires group <= db.feedbag.Keys
  {
    Flags(exists k <- group :: db.feedbag[k].classId == BUDDY && !db.feedbag[k].authPending,
          exists k <- group :: db.feedbag[k].classId == PERMIT,
          exists k <- group :: db.feedbag[k].classId == DENY)
  }

  // The feedbag rows that name me, by their owner, and my own rows, by the name they have.
  ghost function TheirFeedbag(db: DB, me: Name, filter: Option<set<Name>>, u: Name): Option<Flags> {
    var group := set k | k in db.feedbag && OnList(db, k) && db.feedbag[k].name == me
                         && Passes(filter, k.screenName) && k.screenName == u;
    if group == {} then None else Some(Grouped(db, group))
  }

  ghost function YourFeedbag(db: DB, me: Name, filter: Option<set<Name>>, n: Name): Option<Flags> {
    var group := set k | k in db.feedbag && OnList(db, k) && k.screenName == me
                         && Passes(filter, db.feedbag[k].name) && db.feedbag[k].name == n;
    if group == {} then None else Some(Grouped(db, group))
  }

  function TheirClientSide(db: DB, me: Name, filter: Option<set<Name>>, u: Name): Option<Flags> {
    if Pair(u, me) in db.client && Passes(filter, u) then Some(db.client[Pair(u, me)]) else None
  }

  function YourClientSide(db: DB, me: Name, filter: Option<set<Name>>, n: Name): Option<Flags> {
    if Pair(me, n) in db.client && Passes(filter, n) then Some(db.client[Pair(me, n)]) else None
  }

  // A full outer join of a feedbag row and a client-side row of one name.
  function Joined(c: Option<Flags>, f: Option<Flags>): Option<Flags> {
    if c.None? && f.None? then None
    else Some(Flags(
      IfNull(Or(BuddyOf(c), BuddyOf(f)), false),
      IfNull(Or(PermitOf(c), PermitOf(f)), false),
      IfNull(Or(DenyOf(c), DenyOf(f)), false)))
  }

  ghost function TheirList(db: DB, me: Name, filter: Option<set<Name>>, u: Name): Option<Flags> {
    Joined(TheirClientSide(db, me, filter, u), TheirFeedbag(db, me, filter, u))
  }

  ghost function YourList(db: DB, me: Name, filter: Option<set<Name>>, n: Name): Option<Flags> {
    Joined(YourClientSide(db, me, filter, n), YourFeedbag(db, me, filter, n))
  }

  // The rows of the left join of a user's mode with the user's privacy items: without any item, one row of NULLs.
  function PrefRows(db: DB, u: Name): set<Option<FeedbagKey>> {
    var items := PrivacyItems(db, u);
    if items == {} then {None} else set k | k in items :: Some(k)
  }

  function PrivacyItems(db: DB, u: Name): set<FeedbagKey> {
    set k | k in db.feedbag && k.screenName == u && db.feedbag[k].classId == PDINFO
  }

  function PdMode(db: DB, u: Name, pref: Option<FeedbagKey>): nat
    requires u in db.modes && pref in PrefRows(db, u)
  {
    if !db.modes[u].useFeedbag then db.modes[u].clientSidePDMode
    else if pref.Some? then db.feedbag[pref.value].pdMode else PERMIT_ALL
  }

  // Whether a user with this mode blocks one with these flags on the user's list.
  function Blocks(pdMode: nat, listed: Option<Flags>): bool {
    if pdMode == PERMIT_ALL then false
    else if pdMode == DENY_ALL then true
    else if pdMode == PERMIT_SOME then !IfNull(PermitOf(listed), false)
    else if pdMode == DENY_SOME then IfNull(DenyOf(listed), false)
    else if pdMode == PERMIT_ON_LIST then !IfNull(BuddyOf(listed), false)
    else false
  }

  // ---- The query ----

  // A row of the result, identified by the rows it was joined from.
  datatype Row = Row(user: Name, theirPref: Option<FeedbagKey>, yourPref: Option<FeedbagKey>)

  datatype Rel = Rel(youBlock: bool, blocksYou: bool, isOnTheirList: bool, isOnYourList: bool)

  ghost predicate HasRow(db: DB, me: Name, filter: Option<set<Name>>, r: Row) {
    && (TheirList(db, me, filter, r.user).Some? || YourList(db, me, filter, r.user).Some?)
    && r.user in db.modes && r.theirPref in PrefRows(db, r.user)
    && me in db.modes && r.yourPref in PrefRows(db, me)
  }

  ghost function RelOf(db: DB, me: Name, filter: Option<set<Name>>, r: Row): Rel
    requires HasRow(db, me, filter, r)
  {
    var theirs, yours := TheirList(db, me, filter, r.user), YourList(db, me, filter, r.user);
    Rel(Blocks(PdMode(db, me, r.yourPref), yours),
        Blocks(PdMode(db, r.user, r.theirPref), theirs),
        IfNull(BuddyOf(theirs), false),
        IfNull(BuddyOf(yours), false))
  }

  function Swap(r: Rel): Rel {
    Rel(r.blocksYou, r.youBlock, r.isOnYourList, r.isOnTheirList)
  }

  // ---- Mirror symmetry ----

  // The two subqueries see the same rows from their two ends.
  lemma ListsMirror(db: DB, me: Name, them: Name)
    ensures TheirList(db, me, None, them) == YourList(db, them, None, me)
  {
    var a := set k | k in db.feedbag && OnList(db, k) && db.feedbag[k].name == me && Passes(None, k.screenName)
                     && k.screenName == them;
    var b := set k | k in db.feedbag && OnList(db, k) && k.screenName == them && Passes(None, db.feedbag[k].name)
                     && db.feedbag[k].name == me;
    assert a == b;
  }

  // (me, them) has a row exactly when (them, me) has the mirrored one, and the mirrored row says the same with the
  // two sides swapped.
  lemma MirrorSymmetric(db: DB, me: Name, them: Name, a: Option<FeedbagKey>, b: Option<FeedbagKey>)
    ensures HasRow(db, me, None, Row(them, a, b)) <==> HasRow(db, them, None, Row(me, b, a))
    ensures HasRow(db, me, None, Row(them, a, b)) ==>
              RelOf(db, them, None, Row(me, b, a)) == Swap(RelOf(db, me, None, Row(them, a, b)))
  {
    ListsMirror(db, me, them);
    ListsMirror(db, them, me);
  }

  // ---- Filtering ----

  lemma FilteredLists(db: DB, me: Name, f: set<Name>, u: Name)
    ensures TheirList(db, me, Some(f), u) == if u in f then TheirList(db, me, None, u) else None
    ensures YourList(db, me, Some(f), u) == if u in f then YourList(db, me, None, u) else None
  {
    var theirs := set k | k in db.feedbag && OnList(db, k) && db.feedbag[k].name == me && Passes(None, k.screenName)
                          && k.screenName == u;
    var theirsF := set k | k in db.feedbag && OnList(db, k) && db.feedbag[k].name == me
                           && Passes(Some(f), k.screenName) && k.screenName == u;
    assert theirsF == if u in f then theirs else {};
    var yours := set k | k in db.feedbag && OnList(db, k) && k.screenName == me && Passes(None, db.feedbag[k].name)
                         && db.feedbag[k].name == u;
    var yoursF := set k | k in db.feedbag && OnList(db, k) && k.screenName == me
                          && Passes(Some(f), db.feedbag[k].name) && db.feedbag[k].name == u;
    assert yoursF == if u in f then yours else {};
  }

  // The filtering query is the other one restricted to its filter.
  lemma FilterExact(db: DB, me: Name, f: set<Name>, r: Row)
    ensures HasRow(db, me, Some(f), r) <==> HasRow(db, me, None, r) && r.user in f
    ensures HasRow(db, me, Some(f), r) ==> RelOf(db, me, Some(f), r) == RelOf(db, me, None, r)
  {
    FilteredLists(db, me, f, r.user);
  }

  // ---- AllRelationships ----

  // Which query runs: without any name the one that does not filter.
  function FilterOf(names: seq<Name>): Option<set<Name>> {
    if |names| > 0 then Some(NameSet(names)) else None
  }

  function NameSet(names: seq<Name>): set<Name> { set n | n in names }

  ghost predicate Returns(db: DB, me: Name, names: seq<Name>, r: Row) {
    HasRow(db, me, FilterOf(names), r)
  }

  ghost predicate Restricted(db: DB, me: Name, names: seq<Name>) {
    forall r :: Returns(db, me, names, r) <==> HasRow(db, me, None, r) && r.user in names
  }

  // The result is the unfiltered one restricted to the names if and only if there is a name or the unfiltered result
  // is empty; the rows it has are the same ones.
  lemma FilterExactly(db: DB, me: Name, names: seq<Name>)
    ensures Restricted(db, me, names) <==> names != [] || !exists r :: HasRow(db, me, None, r)
    ensures forall r | Returns(db, me, names, r) ::
              HasRow(db, me, None, r) && RelOf(db, me, FilterOf(names), r) == RelOf(db, me, None, r)
  {
    if names != [] {
      forall r ensures Returns(db, me, names, r) <==> HasRow(db, me, None, r) && r.user in names {
        FilterExact(db, me, NameSet(names), r);
      }
      forall r | Returns(db, me, names, r) ensures RelOf(db, me, FilterOf(names), r) == RelOf(db, me, None, r) {
        FilterExact(db, me, NameSet(names), r);
      }
    } else if r :| HasRow(db, me, None, r) {
      assert Returns(db, me, names, r) && r.user !in names;
    }
  }

  // Ann has Bob on her client-side list; asked about nobody, the query answers about Bob.
  lemma EmptyFilterReturnsAll()
    ensures var db := DB(map[], map["ann" := Mode(PERMIT_ALL, false), "bob" := Mode(PERMIT_ALL, false)],
                         map[Pair("ann", "bob") := Flags(true, false, false)]);
      Returns(db, "ann", [], Row("bob", None, None)) && !Restricted(db, "ann", [])
  {
    var db := DB(map[], map["ann" := Mode(PERMIT_ALL, false), "bob" := Mode(PERMIT_ALL, false)],
                 map[Pair("ann", "bob") := Flags(true, false, false)]);
    assert YourClientSide(db, "ann", None, "bob").Some?;
    assert PrivacyItems(db, "ann") == {} && PrivacyItems(db, "bob") == {};
    assert HasRow(db, "ann", None, Row("bob", None, None));
  }

  // ---- How many rows a user has ----

  ghost predicate Related(db: DB, me: Name, them: Name) {
    && (TheirList(db, me, None, them).Some? || YourList(db, me, None, them).Some?)
    && them in db.modes && me in db.modes
  }

  // A related user has one row exactly when neither side has more than one privacy item.
  lemma OneRowExactly(db: DB, me: Name, them: Name)
    requires Related(db, me, them)
    ensures exists r: Row :: r.user == them && HasRow(db, me, None, r)
    ensures (forall r: Row, q: Row | HasRow(db, me, None, r) && HasRow(db, me, None, q) && r.user == them && q.user == them :: r == q)
       <==> |PrivacyItems(db, them)| <= 1 && |PrivacyItems(db, me)| <= 1
  {
    var a := APref(db, them);
    var b := APref(db, me);
    assert HasRow(db, me, None, Row(them, a, b));
    AtMostOne(PrivacyItems(db, them));
    AtMostOne(PrivacyItems(db, me));
    if !(|PrivacyItems(db, them)| <= 1) {
      var k, l :| k in PrivacyItems(db, them) && l in PrivacyItems(db, them) && k != l;
      assert HasRow(db, me, None, Row(them, Some(k), b)) && HasRow(db, me, None, Row(them, Some(l), b));
      assert Row(them, Some(k), b) != Row(them, Some(l), b);
    } else if !(|PrivacyItems(db, me)| <= 1) {
      var k, l :| k in PrivacyItems(db, me) && l in PrivacyItems(db, me) && k != l;
      assert HasRow(db, me, None, Row(them, a, Some(k))) && HasRow(db, me, None, Row(them, a, Some(l)));
      assert Row(them, a, Some(k)) != Row(them, a, Some(l));
    }
  }

  lemma APref(db: DB, u: Name) returns (p: Option<FeedbagKey>)
    ensures p in PrefRows(db, u)
  {
    if PrivacyItems(db, u) == {} {
      p := None;
    } else {
      var k :| k in PrivacyItems(db, u);
      p := Some(k);
    }
  }

  lemma AtMostOne<T>(s: set<T>)
    ensures |s| <= 1 <==> forall x, y | x in s && y in s :: x == y
  {
    if s != {} {
      var x :| x in s;
      if |s| <= 1 {
        assert |s - {x}| == 0;
        forall y | y in s ensures y == x { assert y !in s - {x}; }
      } else {
        var rest := s - {x};
        assert |rest| == |s| - 1;
        var y :| y in rest;
      }
    }
  }

  // ---- Relationship(me, them) ----

  // What Relationship may answer: a row of the query for the one user, or all false when there is none.
  ghost predicate Answers(db: DB, me: Name, them: Name, r: Rel) {
    if exists q :: Returns(db, me, [them], q)
    then exists q :: Returns(db, me, [them], q) && r == RelOf(db, me, FilterOf([them]), q)
    else r == Rel(false, false, false, false)
  }

  lemma OneName(them: Name)
    ensures FilterOf([them]) == Some({them})
  {
    assert NameSet([them]) == {them};
  }

  lemma FilteredMirror(db: DB, me: Name, them: Name, x: Row)
    requires Returns(db, me, [them], x)
    ensures x.user == them
    ensures var y := Row(me, x.yourPref, x.theirPref);
      && Returns(db, them, [me], y)
      && RelOf(db, them, FilterOf([me]), y) == Swap(RelOf(db, me, FilterOf([them]), x))
  {
    OneName(them);
    OneName(me);
    FilterExact(db, me, {them}, x);
    MirrorSymmetric(db, me, them, x.theirPref, x.yourPref);
    FilterExact(db, them, {me}, Row(me, x.yourPref, x.theirPref));
  }

  lemma FilteredOnce(db: DB, me: Name, them: Name, x: Row, y: Row)
    requires |PrivacyItems(db, me)| <= 1 && |PrivacyItems(db, them)| <= 1
    requires Returns(db, me, [them], x) && Returns(db, me, [them], y)
    ensures x == y
  {
    OneName(them);
    FilterExact(db, me, {them}, x);
    FilterExact(db, me, {them}, y);
    AtMostOne(PrivacyItems(db, them));
    AtMostOne(PrivacyItems(db, me));
  }

  // With at most one privacy item a user, the answer is determined, and the other side gets the mirrored one.
  lemma AnswersMirror(db: DB, me: Name, them: Name, r: Rel, q: Rel)
    requires |PrivacyItems(db, me)| <= 1 && |PrivacyItems(db, them)| <= 1
    requires Answers(db, me, them, r) && Answers(db, them, me, q)
    ensures q == Swap(r)
  {
    if x :| Returns(db, me, [them], x) && r == RelOf(db, me, FilterOf([them]), x) {
      FilteredMirror(db, me, them, x);
      var y :| Returns(db, them, [me], y) && q == RelOf(db, them, FilterOf([me]), y);
      FilteredOnce(db, them, me, y, Row(me, x.yourPref, x.theirPref));
    } else if y :| Returns(db, them, [me], y) {
      FilteredMirror(db, them, me, y);
      assert false;
    }
  }
}
