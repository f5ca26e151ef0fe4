/**
 Permit and deny requests of clients that keep their buddy list themselves: what each does to the tables, and
 the four-state policy that it all amounts to.
 */
module Privacy {
  import opened Common
  import opened FeedbagItems
  import opened Relationship

  const NO_FLAGS := Flags(false, false, false)

  function FlagsOf(db: DB, p: Pair): Flags {
    if p in db.client then db.client[p] else NO_FLAGS
  }

  // ---- The store's statements ----

  function SetMode(db: DB, me: Name, mode: nat): DB {
    var useFeedbag := me in db.modes && db.modes[me].useFeedbag;
    db.(modes := db.modes[me := Mode(mode, useFeedbag)])
  }

  function ClearFlags(db: DB, me: Name): DB {
    db.(client := map p | p in db.client ::
      if p.me == me then db.client[p].(isDeny := false, isPermit := false) else db.client[p])
  }

  function ClearBlank(db: DB, me: Name): DB {
    db.(client := map p | p in db.client && !(p.me == me && db.client[p] == NO_FLAGS) :: db.client[p])
  }

  predicate ModeIs(db: DB, me: Name, mode: nat) {
    me in db.modes && db.modes[me].clientSidePDMode == mode
  }

  // SetPDMode: nothing when the mode is set already; otherwise the lists start over.
  function SetPDMode(db: DB, me: Name, mode: nat): DB {
    if ModeIs(db, me, mode) then db else ClearBlank(ClearFlags(SetMode(db, me, mode), me), me)
  }

  function DenyBuddy(db: DB, me: Name, them: Name): DB {
    db.(client := db.client[Pair(me, them) := FlagsOf(db, Pair(me, them)).(isDeny := true)])
  }

  function PermitBuddy(db: DB, me: Name, them: Name): DB {
    db.(client := db.client[Pair(me, them) := FlagsOf(db, Pair(me, them)).(isPermit := true)])
  }

  function RemoveDenyBuddy(db: DB, me: Name, them: Name): DB {
    var p := Pair(me, them);
    if p in db.client then db.(client := db.client[p := db.client[p].(isDeny := false)]) else db
  }

  function RemovePermitBuddy(db: DB, me: Name, them: Name): DB {
    var p := Pair(me, them);
    if p in db.client then db.(client := db.client[p := db.client[p].(isPermit := false)]) else db
  }

  function AddBuddy(db: DB, me: Name, them: Name): DB {
    db.(client := db.client[Pair(me, them) := FlagsOf(db, Pair(me, them)).(isBuddy := true)])
  }

  function RemoveBuddy(db: DB, me: Name, them: Name): DB {
    var p := Pair(me, them);
    if p in db.client then db.(client := db.client[p := db.client[p].(isBuddy := false)]) else db
  }

  function RegisterBuddyList(db: DB, me: Name): DB {
    if me in db.modes then db else db.(modes := db.modes[me := Mode(PERMIT_ALL, false)])
  }

  function UnregisterBuddyList(db: DB, me: Name): DB {
    DB(db.feedbag, db.modes - {me}, map p | p in db.client && p.me != me :: db.client[p])
  }

  function UseFeedbag(db: DB, me: Name): DB {
    db.(modes := db.modes[me := Mode(0, true)])
  }

  // ---- Requests ----

  datatype Kind = Denying | Permitting | Undenying | Unpermitting | Adding | Dropping

  function Statement(db: DB, k: Kind, me: Name, them: Name): DB {
    match k
    case Denying => DenyBuddy(db, me, them)
    case Permitting => PermitBuddy(db, me, them)
    case Undenying => RemoveDenyBuddy(db, me, them)
    case Unpermitting => RemovePermitBuddy(db, me, them)
    case Adding => AddBuddy(db, me, them)
    case Dropping => RemoveBuddy(db, me, them)
  }

  // The statement for the first n users of a request.
  function ForEach(db: DB, k: Kind, me: Name, users: seq<string>, n: nat): DB
    requires n <= |users|
  {
    if n == 0 then db else Statement(ForEach(db, k, me, users, n - 1), k, me, Ident(users[n - 1]))
  }

  predicate OnlySelf(me: Name, users: seq<string>) {
    |users| == 1 && Ident(users[0]) == me
  }

  function AddDenyListEntries(db: DB, me: Name, users: seq<string>): DB {
    if OnlySelf(me, users) then SetPDMode(db, me, PERMIT_ALL)
    else ForEach(SetPDMode(db, me, DENY_SOME), Denying, me, users, |users|)
  }

  function AddPermListEntries(db: DB, me: Name, users: seq<string>): DB {
    if OnlySelf(me, users) then SetPDMode(db, me, DENY_ALL)
    else ForEach(SetPDMode(db, me, PERMIT_SOME), Permitting, me, users, |users|)
  }

  datatype Request =
    | AddDeny(users: seq<string>) | AddPermit(users: seq<string>)
    | DelDeny(users: seq<string>) | DelPermit(users: seq<string>)
    | AddBuddies(users: seq<string>) | DelBuddies(users: seq<string>)
    | Register | Unregister | ToFeedbag
    | ChangeFeedbag(feedbag: map<FeedbagKey, FeedbagRow>)

  function Apply(db: DB, me: Name, r: Request): DB {
    match r
    case AddDeny(users) => AddDenyListEntries(db, me, users)
    case AddPermit(users) => AddPermListEntries(db, me, users)
    case DelDeny(users) => ForEach(db, Undenying, me, users, |users|)
    case DelPermit(users) => ForEach(db, Unpermitting, me, users, |users|)
    case AddBuddies(users) => ForEach(db, Adding, me, users, |users|)
    case DelBuddies(users) => ForEach(db, Dropping, me, users, |users|)
    case Register => RegisterBuddyList(db, me)
    case Unregister => UnregisterBuddyList(db, me)
    case ToFeedbag => UseFeedbag(db, me)
    case ChangeFeedbag(feedbag) => db.(feedbag := feedbag)
  }

  // ---- The policy ----

  datatype Policy = Unregistered | PermitAll | DenyAll | PermitSome(list: set<Name>) | DenySome(list: set<Name>)

  function Idents(users: seq<string>): set<Name> {
    set i | 0 <= i < |users| :: Ident(users[i])
  }

  function NextPolicy(p: Policy, me: Name, r: Request): Policy {
    match r
    case AddDeny(users) =>
      if OnlySelf(me, users) then PermitAll
      else DenySome((if p.DenySome? then p.list else {}) + Idents(users))
    case AddPermit(users) =>
      if OnlySelf(me, users) then DenyAll
      else PermitSome((if p.PermitSome? then p.list else {}) + Idents(users))
    case DelDeny(users) => if p.DenySome? then DenySome(p.list - Idents(users)) else p
    case DelPermit(users) => if p.PermitSome? then PermitSome(p.list - Idents(users)) else p
    case Register => if p.Unregistered? then PermitAll else p
    case Unregister => Unregistered
    case _ => p
  }

  // Whom a user with the policy blocks.
  predicate PolicyBlocks(p: Policy, them: Name) {
    match p
    case DenyAll => true
    case PermitSome(list) => them !in list
    case DenySome(list) => them in list
    case _ => false
  }

  function ModeOf(p: Policy): nat
    requires !p.Unregistered?
  {
    match p
    case PermitAll => PERMIT_ALL
    case DenyAll => DENY_ALL
    case PermitSome(_) => PERMIT_SOME
    case DenySome(_) => DENY_SOME
  }

  predicate HasMode(db: DB, me: Name, p: Policy) {
    if p.Unregistered? then me !in db.modes
    else me in db.modes && db.modes[me] == Mode(ModeOf(p), false)
  }

  // Deny flags exist in DenySome alone and permit flags in PermitSome alone, each exactly for the listed users.
  ghost predicate HasFlags(db: DB, me: Name, p: Policy) {
    && (forall t: Name :: FlagsOf(db, Pair(me, t)).isDeny <==> p.DenySome? && t in p.list)
    && (forall t: Name :: FlagsOf(db, Pair(me, t)).isPermit <==> p.PermitSome? && t in p.list)
  }

  ghost predicate Follows(db: DB, me: Name, p: Policy) {
    HasMode(db, me, p) && HasFlags(db, me, p)
  }

  // ---- Each request keeps to the policy ----

  // A request of n users, flag by flag.
  lemma {:induction false} ForEachFlags(db: DB, k: Kind, me: Name, users: seq<string>, n: nat, p: Pair)
    requires n <= |users|
    ensures var db' := ForEach(db, k, me, users, n);
      var f, f', hit := FlagsOf(db, p), FlagsOf(db', p), p.me == me && p.them in Idents(users[..n]);
      && db'.modes == db.modes && db'.feedbag == db.feedbag
      && f' == if !hit then f else match k
           case Denying => f.(isDeny := true)
           case Permitting => f.(isPermit := true)
           case Undenying => f.(isDeny := false)
           case Unpermitting => f.(isPermit := false)
           case Adding => f.(isBuddy := true)
           case Dropping => f.(isBuddy := false)
  {
    if n > 0 {
      ForEachFlags(db, k, me, users, n - 1, p);
      IdentsNext(users, n);
    }
  }

  lemma IdentsNext(users: seq<string>, n: nat)
    requires 0 < n <= |users|
    ensures Idents(users[..n]) == Idents(users[..n - 1]) + {Ident(users[n - 1])}
  {
    forall x | x in Idents(users[..n]) ensures x in Idents(users[..n - 1]) || x == Ident(users[n - 1]) {
      var i :| 0 <= i < n && x == Ident(users[..n][i]);
      if i < n - 1 { assert users[..n - 1][i] == users[..n][i]; }
    }
    forall x | x in Idents(users[..n - 1]) ensures x in Idents(users[..n]) {
      var i :| 0 <= i < n - 1 && x == Ident(users[..n - 1][i]);
      assert users[..n][i] == users[..n - 1][i];
    }
    assert users[..n][n - 1] == users[n - 1];
  }

  // A new mode drops my permit and deny flags, and nothing of anybody else's.
  lemma SetPDModeFlags(db: DB, me: Name, mode: nat, p: Pair)
    ensures var db' := SetPDMode(db, me, mode);
      && FlagsOf(db', p) == (if ModeIs(db, me, mode) || p.me != me then FlagsOf(db, p)
                             else FlagsOf(db, p).(isDeny := false, isPermit := false))
      && db'.feedbag == db.feedbag
      && (forall u :: u != me ==> (u in db'.modes <==> u in db.modes) && (u in db.modes ==> db'.modes[u] == db.modes[u]))
  {
  }

  lemma SetPDModeFollows(db: DB, me: Name, p: Policy, q: Policy)
    requires Follows(db, me, p) && !q.Unregistered?
    requires q.DenySome? ==> q.list == if p.DenySome? then p.list else {}
    requires q.PermitSome? ==> q.list == if p.PermitSome? then p.list else {}
    ensures Follows(SetPDMode(db, me, ModeOf(q)), me, q)
  {
    forall t: Name { SetPDModeFlags(db, me, ModeOf(q), Pair(me, t)); }
  }

  // Changing the flags of the users of a request changes the policy's list accordingly.
  lemma ForEachFollows(db: DB, k: Kind, me: Name, users: seq<string>, p: Policy, q: Policy)
    requires Follows(db, me, p)
    requires match k
             case Denying => p.DenySome? && q == DenySome(p.list + Idents(users))
             case Permitting => p.PermitSome? && q == PermitSome(p.list + Idents(users))
             case Undenying => q == if p.DenySome? then DenySome(p.list - Idents(users)) else p
             case Unpermitting => q == if p.PermitSome? then PermitSome(p.list - Idents(users)) else p
             case _ => q == p
    ensures Follows(ForEach(db, k, me, users, |users|), me, q)
  {
    assert users[..|users|] == users;
    forall t: Name { ForEachFlags(db, k, me, users, |users|, Pair(me, t)); }
  }

  lemma AddsFollow(db: DB, me: Name, p: Policy, r: Request)
    requires Follows(db, me, p) && (r.AddDeny? || r.AddPermit?)
    ensures Follows(Apply(db, me, r), me, NextPolicy(p, me, r))
  {
    if OnlySelf(me, r.users) {
      SetPDModeFollows(db, me, p, NextPolicy(p, me, r));
    } else if r.AddDeny? {
      var q := DenySome(if p.DenySome? then p.list else {});
      SetPDModeFollows(db, me, p, q);
      ForEachFollows(SetPDMode(db, me, DENY_SOME), Denying, me, r.users, q, NextPolicy(p, me, r));
    } else {
      var q := PermitSome(if p.PermitSome? then p.list else {});
      SetPDModeFollows(db, me, p, q);
      ForEachFollows(SetPDMode(db, me, PERMIT_SOME), Permitting, me, r.users, q, NextPolicy(p, me, r));
    }
  }

  lemma OwnRequest(db: DB, me: Name, p: Policy, r: Request)
    requires Follows(db, me, p) && !r.ToFeedbag?
    ensures Follows(Apply(db, me, r), me, NextPolicy(p, me, r))
  {
    match r
    case AddDeny(_) => AddsFollow(db, me, p, r);
    case AddPermit(_) => AddsFollow(db, me, p, r);
    case DelDeny(users) => ForEachFollows(db, Undenying, me, users, p, NextPolicy(p, me, r));
    case DelPermit(users) => ForEachFollows(db, Unpermitting, me, users, p, NextPolicy(p, me, r));
    case AddBuddies(users) => ForEachFollows(db, Adding, me, users, p, p);
    case DelBuddies(users) => ForEachFollows(db, Dropping, me, users, p, p);
    case _ =>
  }

  // Requests of others change nothing of mine.
  lemma OthersRequest(db: DB, me: Name, p: Policy, other: Name, r: Request)
    requires Follows(db, me, p) && other != me
    ensures Follows(Apply(db, other, r), me, p)
  {
    forall t: Name ensures FlagsOf(Apply(db, other, r), Pair(me, t)) == FlagsOf(db, Pair(me, t)) {
      OthersFlags(db, Pair(me, t), other, r);
    }
    OthersFlags(db, Pair(me, me), other, r);
  }

  lemma OthersFlags(db: DB, p: Pair, other: Name, r: Request)
    requires other != p.me
    ensures var db' := Apply(db, other, r);
      && FlagsOf(db', p) == FlagsOf(db, p)
      && (p.me in db'.modes <==> p.me in db.modes) && (p.me in db.modes ==> db'.modes[p.me] == db.modes[p.me])
  {
    match r
    case AddDeny(users) =>
      SetPDModeFlags(db, other, PERMIT_ALL, p);
      SetPDModeFlags(db, other, DENY_SOME, p);
      ForEachFlags(SetPDMode(db, other, DENY_SOME), Denying, other, users, |users|, p);
    case AddPermit(users) =>
      SetPDModeFlags(db, other, DENY_ALL, p);
      SetPDModeFlags(db, other, PERMIT_SOME, p);
      ForEachFlags(SetPDMode(db, other, PERMIT_SOME), Permitting, other, users, |users|, p);
    case DelDeny(users) => ForEachFlags(db, Undenying, other, users, |users|, p);
    case DelPermit(users) => ForEachFlags(db, Unpermitting, other, users, |users|, p);
    case AddBuddies(users) => ForEachFlags(db, Adding, other, users, |users|, p);
    case DelBuddies(users) => ForEachFlags(db, Dropping, other, users, |users|, p);
    case _ =>
  }

  // ---- Runs ----

  datatype Event = Event(who: Name, request: Request)

  function Run(es: seq<Event>): DB {
    if es == [] then DB(map[], map[], map[])
    else Apply(Run(es[..|es| - 1]), es[|es| - 1].who, es[|es| - 1].request)
  }

  function PolicyAfter(es: seq<Event>, me: Name): Policy {
    if es == [] then Unregistered
    else
      var e, p := es[|es| - 1], PolicyAfter(es[..|es| - 1], me);
      if e.who == me then NextPolicy(p, me, e.request) else p
  }

  predicate StaysOff(es: seq<Event>, me: Name) {
    forall i :: 0 <= i < |es| && es[i].who == me ==> !es[i].request.ToFeedbag?
  }

  lemma {:induction false} RunFollows(es: seq<Event>, me: Name)
    requires StaysOff(es, me)
    ensures Follows(Run(es), me, PolicyAfter(es, me))
  {
    if es != [] {
      var n := |es| - 1;
      RunFollows(es[..n], me);
      if es[n].who == me {
        OwnRequest(Run(es[..n]), me, PolicyAfter(es[..n], me), es[n].request);
      } else {
        OthersRequest(Run(es[..n]), me, PolicyAfter(es[..n], me), es[n].who, es[n].request);
      }
    }
  }

  // For a user not on feedbag, after any run of requests by anybody, every relationship row says that the user blocks
  // exactly whom the policy blocks; and so does every row of the other side.
  lemma RowsFollowPolicy(es: seq<Event>, me: Name, r: Row)
    requires StaysOff(es, me) && HasRow(Run(es), me, None, r)
    ensures RelOf(Run(es), me, None, r).youBlock == PolicyBlocks(PolicyAfter(es, me), r.user)
    ensures var q := Row(me, r.yourPref, r.theirPref);
      HasRow(Run(es), r.user, None, q)
      && RelOf(Run(es), r.user, None, q).blocksYou == PolicyBlocks(PolicyAfter(es, me), r.user)
  {
    var db := Run(es);
    RunFollows(es, me);
    assert YourFeedbag(db, me, None, r.user) == None;
    MirrorSymmetric(db, me, r.user, r.theirPref, r.yourPref);
  }

  // A user without a registered list has no rows at all.
  lemma UnregisteredHasNoRows(es: seq<Event>, me: Name, r: Row)
    requires StaysOff(es, me)
    ensures PolicyAfter(es, me).Unregistered? ==> !HasRow(Run(es), me, None, r)
  {
    RunFollows(es, me);
  }

  // ---- Requests about oneself, and the switch ----

  // A request that names oneself alone permits or denies everybody; a request that names others too does not.
  lemma SelfRequests(p: Policy, me: Name, users: seq<string>)
    ensures |users| == 1 && Ident(users[0]) == me ==>
              NextPolicy(p, me, AddDeny(users)) == PermitAll && NextPolicy(p, me, AddPermit(users)) == DenyAll
    ensures |users| != 1 || Ident(users[0]) != me ==>
              && NextPolicy(p, me, AddDeny(users)).DenySome?
              && NextPolicy(p, me, AddPermit(users)).PermitSome?
  {
  }

  // A user who switches to the stored list is marked so; nobody else is, and no list changes.
  lemma Switches(db: DB, me: Name, n: Name)
    ensures var db' := Apply(db, me, ToFeedbag);
      && db'.feedbag == db.feedbag && db'.client == db.client
      && me in db'.modes && db'.modes[me].useFeedbag && db'.modes[me].clientSidePDMode == 0
      && (n != me ==> (n in db'.modes <==> n in db.modes) && (n in db.modes ==> db'.modes[n] == db.modes[n]))
  {
  }
}
