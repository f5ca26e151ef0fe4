/** The feedbag requests as they run: loops over the items of a request, on tables that each item changes. */
module AuthorizationService {
  import opened Common
  import opened Tlv
  import opened FeedbagItems
  import opened Relationship
  import A = Authorization
  import opened Authorization

  const AUTH_REQUIRED: nat := 0x000E

  class FeedbagService {
    const registered: set<Name>
    const authRequired: set<Name>
    var preauth: set<(Name, Name)>
    var rows: map<FeedbagKey, Item>

    ghost function State(): A.State
      reads this
    {
      A.State(registered, authRequired, preauth, rows)
    }

    constructor (users: set<Name>, careful: set<Name>)
      ensures State() == A.State(users, careful, {}, map[])
    {
      registered, authRequired, preauth, rows := users, careful, {}, map[];
    }

    method Requires(owner: Name, requester: Name) returns (blocked: bool)
      ensures blocked == RequiresAuthorization(State(), owner, requester)
    {
      if owner !in registered || owner !in authRequired { return false; }
      return (owner, requester) !in preauth;
    }

    method Record(owner: Name, requester: Name)
      modifies this`preauth
      ensures State() == RecordPreAuth(old(State()), owner, requester)
    {
      if owner in registered && requester in registered { preauth := preauth + {(owner, requester)}; }
    }

    // The first pass: items that refuse the whole request.
    method Check(me: Name, items: seq<Item>) returns (r: Option<Refusal>)
      ensures r == Refused(me, items)
    {
      var i := 0;
      assert items[0..] == items;
      while i < |items|
        invariant 0 <= i <= |items| && Refused(me, items) == Refused(me, items[i..])
      {
        if items[i].classId == DENY && Ident(items[i].name) == me { return Some(NotSupportedByHost); }
        if items[i].classId == ALINFO { return Some(InsufficientRights); }
        assert items[i..][1..] == items[i + 1..];
        i := i + 1;
      }
      return None;
    }

    // One turn of the second pass.
    method Judge(me: Name, item: Item) returns (d: Decision)
      modifies this`preauth
      ensures d == Decide(old(State()), me, item)
      ensures State() == if d.Keep? then Recorded(old(State()), me, item) else old(State())
    {
      if item.classId != BUDDY { return Keep(item); }
      var sn := Ident(item.name);
      if IsIcq(me) && !IsIcq(sn) {
        Record(me, sn);
      } else if IsIcq(me) && IsIcq(sn) {
        var blocked := Requires(sn, me);
        var pending := HasTag(item.tlvs, PENDING);
        if blocked && !pending { return Withhold; }
        if pending && !blocked { return Keep(item.(tlvs := Remove(item.tlvs, PENDING))); }
      } else if !IsIcq(me) && IsIcq(sn) {
        var blocked := Requires(sn, me);
        if blocked { return Keep(item.(tlvs := item.tlvs + [TLV(PENDING, [])])); }
      }
      return Keep(item);
    }

    method FeedbagUpsert(me: Name, items: seq<Item>)
      modifies this`rows
      ensures State() == Store(old(State()), me, items, |items|)
    {
      for i := 0 to |items|
        invariant State() == Store(old(State()), me, items, i)
      {
        rows := rows[FeedbagKey(me, items[i].groupId, items[i].itemId) := Stored(items[i])];
      }
    }

    method FeedbagDelete(me: Name, items: seq<Item>)
      modifies this`rows
      ensures State() == A.Next(old(State()), Delete(me, items))
    {
      for i := 0 to |items|
        invariant State() == Erase(old(State()), me, items, i)
      {
        rows := rows - {FeedbagKey(me, items[i].groupId, items[i].itemId)};
      }
    }

    // The second pass.
    method SortEach(me: Name, items: seq<Item>) returns (toUpsert: seq<Item>, withheld: set<string>)
      modifies this`preauth
      ensures Sorted(State(), toUpsert, withheld) == SortOut(old(State()), me, items, |items|)
    {
      toUpsert, withheld := [], {};
      for i := 0 to |items|
        invariant SortOut(old(State()), me, items, i) == Sorted(State(), toUpsert, withheld)
      {
        var d := Judge(me, items[i]);
        match d
        case Withhold => withheld := withheld + {items[i].name};
        case Keep(x) => toUpsert := toUpsert + [x];
      }
    }

    method Statuses(items: seq<Item>, withheld: set<string>) returns (statuses: seq<nat>)
      ensures |statuses| == |items|
      ensures forall i :: 0 <= i < |items| ==> statuses[i] == if items[i].name in withheld then AUTH_REQUIRED else 0
    {
      statuses := [];
      for i := 0 to |items|
        invariant |statuses| == i
        invariant forall j :: 0 <= j < i ==> statuses[j] == if items[j].name in withheld then AUTH_REQUIRED else 0
      {
        statuses := statuses + [if items[i].name in withheld then AUTH_REQUIRED else 0];
      }
    }

    // Answers one status for each item: those withheld, and those that share a name with one, need authorization.
    method UpsertItem(me: Name, items: seq<Item>) returns (r: Result<seq<nat>, Refusal>)
      modifies this
      ensures State() == A.Next(old(State()), Upsert(me, items))
      ensures match Refused(me, items)
              case Some(e) => r == Err(e)
              case None => r.Ok? && Answer(old(State()), me, items, r.value)
    {
      var refusal := Check(me, items);
      if refusal.Some? { return Err(refusal.value); }
      ghost var s := State();
      var toUpsert, withheld := SortEach(me, items);
      if |toUpsert| > 0 { FeedbagUpsert(me, toUpsert); }
      WithheldExactly(s, me, items, |items|);
      var statuses := Statuses(items, withheld);
      return Ok(statuses);
    }
  }

  predicate WithheldName(s: A.State, me: Name, items: seq<Item>, name: string) {
    exists j :: 0 <= j < |items| && items[j].name == name && Decide(s, me, items[j]).Withhold?
  }

  predicate Answer(s: A.State, me: Name, items: seq<Item>, statuses: seq<nat>) {
    && |statuses| == |items|
    && forall i :: 0 <= i < |items| ==>
         statuses[i] == if WithheldName(s, me, items, items[i].name) then AUTH_REQUIRED else 0
  }

  // The client learns for each item whether it was stored: 0x000E for a blocked ICQ buddy that an ICQ user sent without
  // the pending mark, and for every item of the same name, and 0 for all others.
  lemma AnswerExactly(s: A.State, me: Name, items: seq<Item>, statuses: seq<nat>, i: nat)
    requires Answer(s, me, items, statuses) && i < |items|
    ensures i < |statuses| && statuses[i]
         == if exists j :: 0 <= j < |items| && items[j].name == items[i].name && Blocked(s, me, items[j]) then 0x0E else 0
  {
    forall j | 0 <= j < |items| ensures Decide(s, me, items[j]).Withhold? <==> Blocked(s, me, items[j]) {}
  }

  predicate Blocked(s: A.State, me: Name, x: Item) {
    var them := Ident(x.name);
    && x.classId == 0 && IsIcq(me) && IsIcq(them) && !HasTag(x.tlvs, 0x66)
    && them in s.registered && them in s.authRequired && (them, me) !in s.preauth
  }
}
