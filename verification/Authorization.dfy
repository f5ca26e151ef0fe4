/**
 Contact authorization: which buddy rows an upsert stores, how grants are recorded and clear pending rows, and that no
 plain buddy row of an ICQ owner is ever stored without the owner's consent.
 */
module Authorization {
  import opened Common
  import opened Tlv
  import opened FeedbagItems
  import opened Relationship

  const PENDING: u16 := 0x0066

  // `registered` and `authRequired` are the users table, `preauth` has the pairs (owner, authorized).
  datatype State = State(registered: set<Name>, authRequired: set<Name>, preauth: set<(Name, Name)>,
                         rows: map<FeedbagKey, Item>)

  // ---- ICQ numbers ----

  function Digits(s: string): Option<nat> {
    if s == "" then Some(0)
    else
      var c, rest := s[|s| - 1], Digits(s[..|s| - 1]);
      if '0' <= c <= '9' && rest.Some? then Some(10 * rest.value + (c as nat - '0' as nat)) else None
  }

  const MAX_INT: int := 0x7FFF_FFFF_FFFF_FFFF

  // Atoi: an optional sign and digits, held to 64 bits; 0 when the text is no number.
  function Atoi(s: string): int {
    var signed := s != "" && (s[0] == '-' || s[0] == '+');
    var digits := if signed then s[1..] else s;
    if digits == "" then 0
    else match Digits(digits)
      case None => 0
      case Some(v) => if s[0] == '-' then Max(0 - v, -MAX_INT - 1) else Min(v, MAX_INT)
  }

  // The 32-bit number of a screen name, 0 for AIM names.
  function Uin(name: Name): nat { Atoi(name) % 0x1_0000_0000 }

  predicate IsIcq(name: Name) { Uin(name) != 0 }

  // ---- Grants ----

  predicate RequiresAuthorization(s: State, owner: Name, requester: Name) {
    owner in s.registered && owner in s.authRequired && (owner, requester) !in s.preauth
  }

  // Without both users the foreign keys refuse the row and nothing happens.
  function RecordPreAuth(s: State, owner: Name, requester: Name): State {
    if owner in s.registered && requester in s.registered then s.(preauth := s.preauth + {(owner, requester)}) else s
  }

  // ---- Upserts ----

  predicate IsPending(x: Item) { x.classId == BUDDY && HasTag(x.tlvs, PENDING) }

  datatype Decision = Withhold | Keep(item: Item)

  // What becomes of one item. A blocked ICQ user must ask again with the pending mark; an AIM user gets it put on.
  function Decide(s: State, me: Name, item: Item): Decision {
    var sn := Ident(item.name);
    if item.classId != BUDDY || !IsIcq(sn) then Keep(item)
    else
      var blocked, pending := RequiresAuthorization(s, sn, me), HasTag(item.tlvs, PENDING);
      if IsIcq(me) then
        if blocked && !pending then Withhold
        else if pending && !blocked then Keep(item.(tlvs := Remove(item.tlvs, PENDING)))
        else Keep(item)
      else if blocked then Keep(item.(tlvs := item.tlvs + [TLV(PENDING, [])]))
      else Keep(item)
  }

  // Adding an AIM user authorizes that user at once.
  function Recorded(s: State, me: Name, item: Item): State {
    var sn := Ident(item.name);
    if item.classId == BUDDY && IsIcq(me) && !IsIcq(sn) then RecordPreAuth(s, me, sn) else s
  }

  datatype Sorted = Sorted(state: State, toUpsert: seq<Item>, withheld: set<string>)

  // The first n items of an upsert.
  function SortOut(s: State, me: Name, items: seq<Item>, n: nat): Sorted
    requires n <= |items|
  {
    if n == 0 then Sorted(s, [], {})
    else
      var Sorted(t, up, withheld) := SortOut(s, me, items, n - 1);
      var item := items[n - 1];
      match Decide(t, me, item)
      case Withhold => Sorted(t, up, withheld + {item.name})
      case Keep(x) => Sorted(Recorded(t, me, item), up + [x], withheld)
  }

  // FeedbagUpsert and FeedbagDelete, for the first n items.
  function Store(s: State, me: Name, items: seq<Item>, n: nat): State
    requires n <= |items|
  {
    if n == 0 then s
    else
      var x, t := items[n - 1], Store(s, me, items, n - 1);
      t.(rows := t.rows[FeedbagKey(me, x.groupId, x.itemId) := Stored(x)])
  }

  function Erase(s: State, me: Name, items: seq<Item>, n: nat): State
    requires n <= |items|
  {
    if n == 0 then s
    else
      var x, t := items[n - 1], Erase(s, me, items, n - 1);
      t.(rows := t.rows - {FeedbagKey(me, x.groupId, x.itemId)})
  }

  datatype Refusal = NotSupportedByHost | InsufficientRights

  // Users may not block themselves, nor add linked accounts; the first such item refuses the whole request.
  function Refused(me: Name, items: seq<Item>): Option<Refusal> {
    if items == [] then None
    else if items[0].classId == DENY && Ident(items[0].name) == me then Some(NotSupportedByHost)
    else if items[0].classId == ALINFO then Some(InsufficientRights)
    else Refused(me, items[1..])
  }

  function UpsertItem(s: State, me: Name, items: seq<Item>): State {
    if Refused(me, items).Some? then s
    else
      var sorted := SortOut(s, me, items, |items|);
      Store(sorted.state, me, sorted.toUpsert, |sorted.toUpsert|)
  }

  // ---- Responses ----

  // The row that clearPendingAuth finds: the first buddy row of the requester, in table order, with the granter's name.
  ghost predicate FirstBuddy(s: State, granter: Name, requester: Name, first: Option<FeedbagKey>) {
    match first
    case Some(k) =>
      k in s.rows && k.screenName == requester && s.rows[k].classId == BUDDY && s.rows[k].name == granter
    case None => forall k <- s.rows :: !(k.screenName == requester && s.rows[k].classId == BUDDY && s.rows[k].name == granter)
  }

  function ClearPending(s: State, first: Option<FeedbagKey>): State {
    if first.None? || first.value !in s.rows || !HasTag(s.rows[first.value].tlvs, PENDING) then s
    else
      var x := s.rows[first.value];
      s.(rows := s.rows[first.value := Stored(x.(tlvs := Remove(x.tlvs, PENDING)))])
  }

  // authorizeContact: the pending row is cleared only while the requester is signed on.
  function Authorize(s: State, granter: Name, requester: Name, online: bool, first: Option<FeedbagKey>): State {
    var t := RecordPreAuth(s, granter, requester);
    if online then ClearPending(t, first) else t
  }

  datatype Event =
    | Upsert(me: Name, items: seq<Item>)
    | Delete(me: Name, items: seq<Item>)
    | PreAuthorize(me: Name, buddy: string, online: bool, first: Option<FeedbagKey>)
    | Respond(me: Name, requester: string, accepted: nat, online: bool, first: Option<FeedbagKey>)

  // Requests come from users that exist.
  ghost predicate Enabled(s: State, e: Event) {
    match e
    case Upsert(me, _) => me in s.registered
    case Delete(me, _) => me in s.registered
    case PreAuthorize(me, buddy, _, first) => me in s.registered && FirstBuddy(s, me, Ident(buddy), first)
    case Respond(me, requester, _, _, first) => me in s.registered && FirstBuddy(s, me, Ident(requester), first)
  }

  function Next(s: State, e: Event): State {
    match e
    case Upsert(me, items) => UpsertItem(s, me, items)
    case Delete(me, items) => Erase(s, me, items, |items|)
    case PreAuthorize(me, buddy, online, first) =>
      if Ident(buddy) == me then s else Authorize(s, me, Ident(buddy), online, first)
    case Respond(me, requester, accepted, online, first) =>
      if accepted == 1 then Authorize(s, me, Ident(requester), online, first) else s
  }

  // ---- The invariant ----

  // A plain buddy row of an ICQ owner is one that its owner allows.
  predicate RowOk(s: State, requester: Name, x: Item) {
    x.classId == BUDDY && IsIcq(x.name) && !IsPending(x) ==> !RequiresAuthorization(s, x.name, requester)
  }

  predicate Inv(s: State) {
    forall k <- s.rows ::
      k.screenName in s.registered && RowOk(s, k.screenName, s.rows[k]) && Stored(s.rows[k]) == s.rows[k]
  }

  // Only grants are added; users stay as they are.
  predicate Granted(s: State, t: State) {
    t.registered == s.registered && t.authRequired == s.authRequired && s.preauth <= t.preauth
  }

  lemma DecideOk(s: State, me: Name, item: Item)
    ensures Decide(s, me, item).Keep? ==> RowOk(s, me, Stored(Decide(s, me, item).item))
  {
    IdentIdempotent(item.name);
    BytesRemove(item.tlvs, PENDING, PENDING);
    BytesAppend(item.tlvs, TLV(PENDING, []), PENDING);
  }

  lemma {:induction false} SortOutOk(s: State, me: Name, items: seq<Item>, n: nat)
    requires n <= |items|
    ensures var r := SortOut(s, me, items, n);
      && Granted(s, r.state) && r.state.rows == s.rows
      && forall i :: 0 <= i < |r.toUpsert| ==> RowOk(r.state, me, Stored(r.toUpsert[i]))
  {
    if n > 0 {
      SortOutOk(s, me, items, n - 1);
      DecideOk(SortOut(s, me, items, n - 1).state, me, items[n - 1]);
    }
  }

  lemma {:induction false} StoreInv(s: State, me: Name, items: seq<Item>, n: nat)
    requires Inv(s) && me in s.registered && n <= |items|
    requires forall i :: 0 <= i < |items| ==> RowOk(s, me, Stored(items[i]))
    ensures var t := Store(s, me, items, n); Inv(t) && t == s.(rows := t.rows)
  {
    if n > 0 {
      StoreInv(s, me, items, n - 1);
      StoredTwice(items[n - 1]);
    }
  }

  lemma {:induction false} EraseInv(s: State, me: Name, items: seq<Item>, n: nat)
    requires Inv(s) && n <= |items|
    ensures var t := Erase(s, me, items, n); Inv(t) && t == s.(rows := t.rows)
  {
    if n > 0 { EraseInv(s, me, items, n - 1); }
  }

  lemma AuthorizeInv(s: State, granter: Name, requester: Name, online: bool, first: Option<FeedbagKey>)
    requires Inv(s) && FirstBuddy(s, granter, requester, first)
    ensures Inv(Authorize(s, granter, requester, online, first))
    ensures Granted(s, Authorize(s, granter, requester, online, first))
  {
    if first.Some? && HasTag(s.rows[first.value].tlvs, PENDING) {
      var x := s.rows[first.value];
      assert Stored(x) == x;
      assert Stored(x.(tlvs := Remove(x.tlvs, PENDING))) == x.(tlvs := Remove(x.tlvs, PENDING));
    }
  }

  lemma StepInv(s: State, e: Event)
    requires Inv(s) && Enabled(s, e)
    ensures Inv(Next(s, e)) && Granted(s, Next(s, e))
  {
    match e
    case Upsert(me, items) =>
      if Refused(me, items).None? {
        var r := SortOut(s, me, items, |items|);
        SortOutOk(s, me, items, |items|);
        StoreInv(r.state, me, r.toUpsert, |r.toUpsert|);
      }
    case Delete(me, items) => EraseInv(s, me, items, |items|);
    case PreAuthorize(me, buddy, online, first) => AuthorizeInv(s, me, Ident(buddy), online, first);
    case Respond(me, requester, _, online, first) => AuthorizeInv(s, me, Ident(requester), online, first);
  }

  // ---- Runs ----

  ghost predicate Runs(s: State, run: seq<Event>, s': State)
    decreases |run|
  {
    if run == [] then s == s'
    else Enabled(s, run[0]) && Runs(Next(s, run[0]), run[1..], s')
  }

  lemma {:induction false} RunInv(s: State, run: seq<Event>, s': State)
    requires Inv(s) && Runs(s, run, s')
    ensures Inv(s') && Granted(s, s')
    decreases |run|
  {
    if run != [] {
      StepInv(s, run[0]);
      RunInv(Next(s, run[0]), run[1..], s');
    }
  }

  // In every state reached from empty lists by upserts, deletions, grants and denials, each stored plain buddy row
  // from r to an ICQ owner has the owner's consent.
  lemma StoredMeansAuthorized(s: State, run: seq<Event>, s': State, k: FeedbagKey)
    requires s.rows == map[] && Runs(s, run, s') && k in s'.rows
    requires s'.rows[k].classId == BUDDY && IsIcq(s'.rows[k].name) && !IsPending(s'.rows[k])
    ensures !RequiresAuthorization(s', s'.rows[k].name, k.screenName)
  {
    RunInv(s, run, s');
    assert RowOk(s', k.screenName, s'.rows[k]);
  }

  // Consent is never taken back.
  lemma ConsentStays(s: State, run: seq<Event>, s': State, owner: Name, requester: Name)
    requires Inv(s) && Runs(s, run, s') && !RequiresAuthorization(s, owner, requester)
    ensures !RequiresAuthorization(s', owner, requester)
  {
    RunInv(s, run, s');
  }

  // ---- What single requests do ----

  // The grants an upsert records never change its own decisions, so each item is judged as if it came alone, and a
  // name is withheld exactly when an item of that name is.
  lemma {:induction false} WithheldExactly(s: State, me: Name, items: seq<Item>, n: nat)
    requires n <= |items|
    ensures var r := SortOut(s, me, items, n);
      && (forall x :: Decide(r.state, me, x) == Decide(s, me, x))
      && (forall name :: name in r.withheld <==>
            exists i :: 0 <= i < n && items[i].name == name && Decide(s, me, items[i]).Withhold?)
  {
    if n > 0 {
      WithheldExactly(s, me, items, n - 1);
      var t := SortOut(s, me, items, n - 1).state;
      forall x ensures Decide(Recorded(t, me, items[n - 1]), me, x) == Decide(t, me, x) {
        assert forall owner | owner in t.registered ::
          RequiresAuthorization(Recorded(t, me, items[n - 1]), owner, me) == RequiresAuthorization(t, owner, me)
          || !IsIcq(me);
      }
    }
  }

  lemma SortOutNext(s: State, me: Name, items: seq<Item>, n: nat)
    requires 0 < n <= |items|
    ensures var d := Decide(s, me, items[n - 1]);
      SortOut(s, me, items, n).toUpsert == SortOut(s, me, items, n - 1).toUpsert + if d.Keep? then [d.item] else []
  {
    WithheldExactly(s, me, items, n - 1);
  }

  // What an upsert is to store: the items that are not withheld, in the order of the request, one for each.
  function Kept(s: State, me: Name, items: seq<Item>): (ks: seq<Item>) {
    if items == [] then []
    else
      var d := Decide(s, me, items[|items| - 1]);
      Kept(s, me, items[..|items| - 1]) + if d.Keep? then [d.item] else []
  }

  lemma {:induction false} KeptInOrder(s: State, me: Name, items: seq<Item>, n: nat)
    requires n <= |items|
    ensures SortOut(s, me, items, n).toUpsert == Kept(s, me, items[..n])
  {
    if n > 0 {
      KeptInOrder(s, me, items, n - 1);
      SortOutNext(s, me, items, n);
      assert items[..n][..n - 1] == items[..n - 1];
    }
  }

  lemma {:induction false} KeptMembers(s: State, me: Name, items: seq<Item>, x: Item)
    ensures x in Kept(s, me, items) <==> exists i :: 0 <= i < |items| && Decide(s, me, items[i]) == Keep(x)
  {
    if items != [] {
      var n := |items| - 1;
      var rest := items[..n];
      KeptMembers(s, me, rest, x);
      if x in Kept(s, me, rest) {
        var i :| 0 <= i < n && Decide(s, me, rest[i]) == Keep(x);
        assert items[i] == rest[i];
      }
      forall i | 0 <= i < n && Decide(s, me, items[i]) == Keep(x) ensures x in Kept(s, me, rest) {
        assert rest[i] == items[i];
      }
    }
  }

  // What is stored keeps the order of the request and leaves out the withheld items alone.
  lemma NothingLost(s: State, me: Name, items: seq<Item>)
    ensures SortOut(s, me, items, |items|).toUpsert == Kept(s, me, items)
    ensures forall x :: x in SortOut(s, me, items, |items|).toUpsert
                   <==> exists i :: 0 <= i < |items| && Decide(s, me, items[i]) == Keep(x)
  {
    KeptInOrder(s, me, items, |items|);
    assert items[..|items|] == items;
    forall x ensures x in Kept(s, me, items) <==> exists i :: 0 <= i < |items| && Decide(s, me, items[i]) == Keep(x) {
      KeptMembers(s, me, items, x);
    }
  }

  // One buddy item naming an ICQ user: withheld with its stored row unchanged, or stored, pending or not.
  lemma UpsertOneBuddy(s: State, me: Name, item: Item)
    requires item.classId == BUDDY && IsIcq(Ident(item.name))
    ensures var k, s' := FeedbagKey(me, item.groupId, item.itemId), UpsertItem(s, me, [item]);
      var blocked, pending := RequiresAuthorization(s, Ident(item.name), me), HasTag(item.tlvs, PENDING);
      if blocked && IsIcq(me) && !pending then s' == s
      else
        && k in s'.rows && s' == s.(rows := s.rows[k := s'.rows[k]])
        && s'.rows[k] == Stored(item).(tlvs := s'.rows[k].tlvs)
        && (IsPending(s'.rows[k]) <==> blocked || (pending && !IsIcq(me)))
  {
    var r := SortOut(s, me, [item], 1);
    assert SortOut(s, me, [item], 0) == Sorted(s, [], {});
    assert [item][1..] == [] && Refused(me, [item]).None?;
    BytesRemove(item.tlvs, PENDING, PENDING);
    BytesAppend(item.tlvs, TLV(PENDING, []), PENDING);
    if Decide(s, me, item).Keep? {
      var x := Decide(s, me, item).item;
      assert r.toUpsert == [x];
      assert Store(s, me, [x], 0) == s;
      assert Store(s, me, [x], 1) == s.(rows := s.rows[FeedbagKey(me, x.groupId, x.itemId) := Stored(x)]);
    } else {
      assert r.toUpsert == [] && Store(s, me, [], 0) == s;
    }
  }

  // A grant between two users lifts the block for good; while the requester is signed on it also turns the row that
  // was found into a plain one, and changes no other row.
  lemma GrantUnblocks(s: State, e: Event)
    requires Inv(s) && Enabled(s, e) && e.Respond? && e.accepted == 1 && Ident(e.requester) in s.registered
    ensures !RequiresAuthorization(Next(s, e), e.me, Ident(e.requester))
    ensures e.online && e.first.Some? ==>
              e.first.value in Next(s, e).rows && !IsPending(Next(s, e).rows[e.first.value])
              && Next(s, e).rows[e.first.value].name == e.me
    ensures forall k <- s.rows :: !(e.online && Some(k) == e.first) ==> k in Next(s, e).rows && Next(s, e).rows[k] == s.rows[k]
  {
    if e.first.Some? {
      var x := s.rows[e.first.value];
      assert Stored(x) == x;
      BytesRemove(x.tlvs, PENDING, PENDING);
    }
  }

  // For a requester who is no user the foreign key refuses the grant, and the block stays.
  lemma GrantNeedsUsersExactly(s: State, granter: Name, requester: Name)
    requires RequiresAuthorization(s, granter, requester)
    ensures RequiresAuthorization(Authorize(s, granter, requester, false, None), granter, requester)
       <==> requester !in s.registered
  {
  }
}
