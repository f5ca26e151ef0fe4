/** What single requests do to the rows and the consents, case by case, and which names are ICQ numbers. */
module AuthorizationLaws {
  import opened Common
  import opened Tlv
  import opened FeedbagItems
  import opened Relationship
  import opened Authorization

  // ---- ICQ numbers ----

  predicate AllDigits(s: string) {
    forall i :: 0 <= i < |s| ==> '0' <= s[i] <= '9'
  }

  lemma {:induction false} DigitsExactly(s: string)
    ensures Digits(s).Some? <==> AllDigits(s)
  {
    if s != "" {
      var n := |s| - 1;
      DigitsExactly(s[..n]);
      if AllDigits(s[..n]) && '0' <= s[n] <= '9' {
        forall i | 0 <= i < |s| ensures '0' <= s[i] <= '9' { if i < n { assert s[..n][i] == s[i]; } }
      }
      if AllDigits(s) { forall i | 0 <= i < n ensures '0' <= s[..n][i] <= '9' { assert s[..n][i] == s[i]; } }
    }
  }

  lemma DigitsNext(s: string, c: char)
    requires AllDigits(s) && '0' <= c <= '9'
    ensures Digits(s).Some? && Digits(s + [c]) == Some(10 * Digits(s).value + (c as nat - '0' as nat))
    ensures AllDigits(s + [c])
  {
    DigitsExactly(s);
    assert (s + [c])[..|s|] == s;
  }

  // A name of digits is read as a decimal number, held to the largest 64-bit one.
  lemma DecimalNumber(s: string, c: char)
    requires AllDigits(s) && '0' <= c <= '9'
    ensures Atoi([c]) == c as int - '0' as int
    ensures s != "" ==> Atoi(s + [c]) == Min(10 * Atoi(s) + (c as int - '0' as int), 0x7FFF_FFFF_FFFF_FFFF)
  {
    DigitsNext("", c);
    assert "" + [c] == [c];
    DigitsNext(s, c);
    if s != "" { assert (s + [c])[0] == s[0]; }
  }

  // A plus sign changes nothing, a minus sign the sign, down to the smallest 64-bit number.
  lemma SignedNumber(s: string)
    requires AllDigits(s) && s != ""
    ensures Atoi("+" + s) == Atoi(s)
    ensures Digits(s).Some? && Atoi("-" + s) == Max(0 - Digits(s).value, -0x8000_0000_0000_0000)
    ensures Digits(s).value <= 0x7FFF_FFFF_FFFF_FFFF ==> Atoi(s) == Digits(s).value
  {
    DigitsExactly(s);
    assert ("+" + s)[1..] == s && ("-" + s)[1..] == s;
  }

  // Everything else is no number and reads as 0.
  lemma NoNumber(s: string)
    requires var t := if s != "" && (s[0] == '-' || s[0] == '+') then s[1..] else s; t == "" || !AllDigits(t)
    ensures Atoi(s) == 0 && !IsIcq(s)
  {
    DigitsExactly(if s != "" && (s[0] == '-' || s[0] == '+') then s[1..] else s);
  }

  // A number of 32 bits other than 0 is an ICQ number.
  lemma IcqNumbers(s: string)
    requires 0 <= Atoi(s) < 0x1_0000_0000
    ensures Uin(s) == Atoi(s) && (IsIcq(s) <==> Atoi(s) > 0)
  {
  }

  // ---- Upserts ----

  function KeyOf(me: Name, x: Item): FeedbagKey { FeedbagKey(me, x.groupId, x.itemId) }

  // An item that refuses the request: a deny entry for oneself or a linked account.
  predicate Refuses(me: Name, x: Item) {
    x.classId == 0x18 || (x.classId == 3 && Ident(x.name) == me)
  }

  // A request is refused as a whole, and changes nothing, if and only if one of its items refuses it; the first one
  // that does says why.
  lemma {:induction false} RefusedExactly(me: Name, items: seq<Item>)
    ensures Refused(me, items).None? <==> forall i :: 0 <= i < |items| ==> !Refuses(me, items[i])
    ensures forall i | 0 <= i < |items| && Refuses(me, items[i]) && forall j :: 0 <= j < i ==> !Refuses(me, items[j]) ::
              Refused(me, items) == Some(if items[i].classId == 3 then NotSupportedByHost else InsufficientRights)
  {
    if items != [] {
      var rest := items[1..];
      RefusedExactly(me, rest);
      if forall i :: 0 <= i < |rest| ==> !Refuses(me, rest[i]) {
        forall i | 1 <= i < |items| ensures !Refuses(me, items[i]) { assert items[i] == rest[i - 1]; }
      }
      forall i | 0 <= i < |items| && Refuses(me, items[i]) && forall j :: 0 <= j < i ==> !Refuses(me, items[j])
        ensures Refused(me, items) == Some(if items[i].classId == 3 then NotSupportedByHost else InsufficientRights)
      {
        if i > 0 {
          assert !Refuses(me, items[0]) && rest[i - 1] == items[i];
          forall j | 0 <= j < i - 1 ensures !Refuses(me, rest[j]) { assert rest[j] == items[j + 1]; }
        }
      }
    }
  }

  lemma RefusedChangesNothing(s: State, me: Name, items: seq<Item>, i: nat)
    requires i < |items| && Refuses(me, items[i])
    ensures Next(s, Upsert(me, items)) == s
  {
    RefusedExactly(me, items);
  }

  // One item that is kept becomes the row under its key.
  lemma KeptIsStored(s: State, me: Name, item: Item)
    requires !Refuses(me, item) && Decide(s, me, item).Keep?
    ensures var x := Decide(s, me, item).item;
      Next(s, Upsert(me, [item]))
        == Recorded(s, me, item).(rows := s.rows[KeyOf(me, x) := Stored(x)])
  {
    var x, t := Decide(s, me, item).item, Recorded(s, me, item);
    assert [item][1..] == [] && Refused(me, [item]).None?;
    assert t.rows == s.rows && |[x]| == 1 && |[item]| == 1;
    assert SortOut(s, me, [item], 0) == Sorted(s, [], {});
    assert SortOut(s, me, [item], 1) == Sorted(t, [x], {});
    assert Store(t, me, [x], 0) == t;
    assert Store(t, me, [x], 1) == t.(rows := t.rows[KeyOf(me, x) := Stored(x)]);
  }

  // An item that is no buddy is stored as it is, and nobody's consent is recorded.
  lemma OtherItem(s: State, me: Name, item: Item)
    requires !Refuses(me, item) && item.classId != 0
    ensures Next(s, Upsert(me, [item])) == s.(rows := s.rows[KeyOf(me, item) := Stored(item)])
  {
    KeptIsStored(s, me, item);
  }

  // A buddy who is no ICQ user is stored as it is; when an ICQ user adds it, that is the ICQ user's consent to be added
  // by the buddy, provided that both are users.
  lemma AimBuddy(s: State, me: Name, item: Item)
    requires item.classId == 0 && !IsIcq(Ident(item.name))
    ensures var them := Ident(item.name);
      var consents := if IsIcq(me) && me in s.registered && them in s.registered then {(me, them)} else {};
      Next(s, Upsert(me, [item]))
        == s.(rows := s.rows[KeyOf(me, item) := Stored(item)], preauth := s.preauth + consents)
  {
    KeptIsStored(s, me, item);
    assert s.preauth + {} == s.preauth;
  }

  // An ICQ user who asks nobody for authorization, or who has given consent, is stored plain, with all attributes.
  lemma FreeIcqBuddy(s: State, me: Name, item: Item)
    requires item.classId == 0 && IsIcq(Ident(item.name)) && !HasTag(item.tlvs, 0x66)
    requires var them := Ident(item.name);
             them !in s.registered || them !in s.authRequired || (them, me) in s.preauth
    ensures Next(s, Upsert(me, [item])) == s.(rows := s.rows[KeyOf(me, item) := Stored(item)])
  {
    KeptIsStored(s, me, item);
  }

  // An ICQ user who asks for authorization and has not given it: another ICQ user must send the pending mark along, and
  // is stored with it; without it nothing is stored. A user of the other network is stored with the mark put on.
  lemma BlockedIcqBuddy(s: State, me: Name, item: Item)
    requires item.classId == 0 && IsIcq(Ident(item.name))
    requires var them := Ident(item.name);
             them in s.registered && them in s.authRequired && (them, me) !in s.preauth
    ensures var s' := Next(s, Upsert(me, [item]));
      if IsIcq(me) then
        s' == if HasTag(item.tlvs, 0x66) then s.(rows := s.rows[KeyOf(me, item) := Stored(item)]) else s
      else
        s' == s.(rows := s.rows[KeyOf(me, item) := Stored(item.(tlvs := item.tlvs + [TLV(0x66, [])]))])
  {
    if IsIcq(me) && !HasTag(item.tlvs, 0x66) {
      assert SortOut(s, me, [item], 0) == Sorted(s, [], {});
      assert SortOut(s, me, [item], 1) == Sorted(s, [], {item.name});
      assert Store(s, me, [], 0) == s;
    } else {
      KeptIsStored(s, me, item);
    }
  }

  // A mark that is no longer needed is taken off when an ICQ user sends it, and every other attribute stays.
  lemma StaleMark(s: State, me: Name, item: Item)
    requires item.classId == 0 && IsIcq(Ident(item.name)) && IsIcq(me)
    requires !RequiresAuthorization(s, Ident(item.name), me)
    ensures var k, s' := KeyOf(me, item), Next(s, Upsert(me, [item]));
      && k in s'.rows && !HasTag(s'.rows[k].tlvs, 0x66)
      && s' == s.(rows := s.rows[k := Stored(item).(tlvs := s'.rows[k].tlvs)])
      && forall tag :: tag != 0x66 ==> Bytes(s'.rows[k].tlvs, tag) == Bytes(item.tlvs, tag)
  {
    KeptIsStored(s, me, item);
    forall tag: u16 ensures tag != 0x66 ==> Bytes(Remove(item.tlvs, 0x66), tag) == Bytes(item.tlvs, tag) {
      BytesRemove(item.tlvs, 0x66, tag);
    }
    BytesRemove(item.tlvs, 0x66, 0x66);
  }

  // ---- Many items ----

  // Of the items stored under one key the last one counts; all other rows stay.
  lemma {:induction false} StoresLast(s: State, me: Name, items: seq<Item>, n: nat, i: nat)
    requires i < n <= |items| && forall j :: i < j < n ==> KeyOf(me, items[j]) != KeyOf(me, items[i])
    ensures var t := Store(s, me, items, n);
      KeyOf(me, items[i]) in t.rows && t.rows[KeyOf(me, items[i])] == Stored(items[i])
  {
    if i < n - 1 { StoresLast(s, me, items, n - 1, i); }
  }

  lemma {:induction false} StoresNoOther(s: State, me: Name, items: seq<Item>, n: nat, k: FeedbagKey)
    requires n <= |items| && forall i :: 0 <= i < n ==> KeyOf(me, items[i]) != k
    ensures var t := Store(s, me, items, n);
      t == s.(rows := t.rows) && (k in t.rows <==> k in s.rows) && (k in s.rows ==> t.rows[k] == s.rows[k])
  {
    if n > 0 { StoresNoOther(s, me, items, n - 1, k); }
  }

  // A deletion takes out the rows under the keys of its items, and nothing else.
  lemma {:induction false} EraseExactly(s: State, me: Name, items: seq<Item>, n: nat)
    requires n <= |items|
    ensures forall k :: k in Erase(s, me, items, n).rows <==>
                          k in s.rows && forall i :: 0 <= i < n ==> KeyOf(me, items[i]) != k
    ensures forall k <- Erase(s, me, items, n).rows :: k in s.rows && Erase(s, me, items, n).rows[k] == s.rows[k]
    ensures Erase(s, me, items, n) == s.(rows := Erase(s, me, items, n).rows)
  {
    if n > 0 { EraseExactly(s, me, items, n - 1); }
  }

  lemma DeleteExactly(s: State, me: Name, items: seq<Item>)
    ensures var s' := Next(s, Delete(me, items));
      && s' == s.(rows := s'.rows)
      && (forall k :: k in s'.rows <==> k in s.rows && forall i :: 0 <= i < |items| ==> KeyOf(me, items[i]) != k)
      && forall k <- s'.rows :: s'.rows[k] == s.rows[k]
  {
    EraseExactly(s, me, items, |items|);
  }

  // ---- Answers ----

  // A request that is not accepted changes nothing, and nobody authorizes himself.
  lemma Declined(s: State, me: Name, them: string, accepted: nat, online: bool, first: Option<FeedbagKey>)
    ensures accepted != 1 ==> Next(s, Respond(me, them, accepted, online, first)) == s
    ensures Ident(them) == me ==> Next(s, PreAuthorize(me, them, online, first)) == s
  {
  }

  // The row that an answer looks at: a buddy row of the requester under the granter's name, or there is none.
  lemma TheRowOfTheRequest(s: State, me: Name, them: Name, first: Option<FeedbagKey>, k: FeedbagKey)
    requires FirstBuddy(s, me, them, first)
    ensures first == Some(k) ==> k in s.rows && k.screenName == them && s.rows[k].classId == 0 && s.rows[k].name == me
    ensures first.None? && k in s.rows && k.screenName == them && s.rows[k].classId == 0 ==> s.rows[k].name != me
  {
  }

  lemma SomeAnswer(s: State, me: Name, them: Name) returns (first: Option<FeedbagKey>)
    ensures FirstBuddy(s, me, them, first)
  {
    if k :| k in s.rows && k.screenName == them && s.rows[k].classId == 0 && s.rows[k].name == me {
      first := Some(k);
    } else {
      first := None;
    }
  }

  // An accepted request, or a consent given in advance, records the consent if both are users. While the requester is
  // signed on, the pending mark also goes from the requester's row.
  lemma Accepted(s: State, e: Event, them: Name)
    requires Inv(s) && Enabled(s, e) && them != e.me
    requires (e.Respond? && e.accepted == 1 && Ident(e.requester) == them)
          || (e.PreAuthorize? && Ident(e.buddy) == them)
    ensures var s' := Next(s, e);
      && s'.preauth == s.preauth + (if e.me in s.registered && them in s.registered then {(e.me, them)} else {})
      && s'.registered == s.registered && s'.authRequired == s.authRequired
      && s'.rows.Keys == s.rows.Keys
      && (forall k <- s.rows :: !(e.online && Some(k) == e.first) ==> s'.rows[k] == s.rows[k])
      && (e.online && e.first.Some? ==>
            var k := e.first.value;
            && !HasTag(s'.rows[k].tlvs, 0x66) && s'.rows[k] == s.rows[k].(tlvs := s'.rows[k].tlvs)
            && forall tag :: tag != 0x66 ==> Bytes(s'.rows[k].tlvs, tag) == Bytes(s.rows[k].tlvs, tag))
  {
    assert s.preauth + {} == s.preauth;
    if e.online && e.first.Some? { Cleared(s, e.first.value); }
  }

  lemma Cleared(s: State, k: FeedbagKey)
    requires Inv(s) && k in s.rows
    ensures var s' := ClearPending(s, Some(k));
      && s' == s.(rows := s.rows[k := s.rows[k].(tlvs := Remove(s.rows[k].tlvs, 0x66))])
      && !HasTag(Remove(s.rows[k].tlvs, 0x66), 0x66)
      && forall tag :: tag != 0x66 ==> Bytes(Remove(s.rows[k].tlvs, 0x66), tag) == Bytes(s.rows[k].tlvs, tag)
  {
    var x := s.rows[k];
    assert Stored(x) == x;
    forall tag: u16 ensures tag != 0x66 ==> Bytes(Remove(x.tlvs, 0x66), tag) == Bytes(x.tlvs, tag) {
      BytesRemove(x.tlvs, 0x66, tag);
    }
    BytesRemove(x.tlvs, 0x66, 0x66);
    if !HasTag(x.tlvs, 0x66) { RemoveAbsent(x.tlvs, 0x66); }
  }

  lemma {:induction false} RemoveAbsent(list: seq<TLV>, tag: u16)
    requires !HasTag(list, tag)
    ensures Remove(list, tag) == list
  {
    if list != [] { RemoveAbsent(list[1..], tag); }
  }
}
