/** The permit and deny requests as they run, on tables that each statement changes. */
module PrivacyStore {
  import opened FeedbagItems
  import opened Relationship
  import opened Privacy

  class Store {
    var feedbag: map<FeedbagKey, FeedbagRow>
    var modes: map<Name, Mode>
    var client: map<Pair, Flags>

    ghost function State(): DB
      reads this
    {
      DB(feedbag, modes, client)
    }

    constructor ()
      ensures State() == Run([])
    {
      feedbag, modes, client := map[], map[], map[];
    }

    // The three statements of the transaction, after the test that the mode is new.
    method SetPDMode(me: Name, mode: nat)
      modifies this
      ensures State() == Privacy.SetPDMode(old(State()), me, mode)
    {
      if me in modes && modes[me].clientSidePDMode == mode { return; }
      modes := modes[me := Mode(mode, me in modes && modes[me].useFeedbag)];
      client := map p | p in client ::
        if p.me == me then client[p].(isDeny := false, isPermit := false) else client[p];
      client := map p | p in client && !(p.me == me && client[p] == NO_FLAGS) :: client[p];
    }

    method Execute(k: Kind, me: Name, them: Name)
      modifies this`client
      ensures State() == Statement(old(State()), k, me, them)
    {
      var p := Pair(me, them);
      var f := if p in client then client[p] else NO_FLAGS;
      match k
      case Denying => client := client[p := f.(isDeny := true)];
      case Permitting => client := client[p := f.(isPermit := true)];
      case Adding => client := client[p := f.(isBuddy := true)];
      case Undenying => if p in client { client := client[p := f.(isDeny := false)]; }
      case Unpermitting => if p in client { client := client[p := f.(isPermit := false)]; }
      case Dropping => if p in client { client := client[p := f.(isBuddy := false)]; }
    }

    method ExecuteEach(k: Kind, me: Name, users: seq<string>)
      modifies this`client
      ensures State() == ForEach(old(State()), k, me, users, |users|)
    {
      for i := 0 to |users|
        invariant State() == ForEach(old(State()), k, me, users, i)
      {
        Execute(k, me, Ident(users[i]));
      }
    }

    method AddDenyListEntries(me: Name, users: seq<string>)
      modifies this
      ensures State() == Apply(old(State()), me, AddDeny(users))
    {
      if |users| == 1 && Ident(users[0]) == me {
        SetPDMode(me, PERMIT_ALL);
        return;
      }
      SetPDMode(me, DENY_SOME);
      ExecuteEach(Denying, me, users);
    }

    method AddPermListEntries(me: Name, users: seq<string>)
      modifies this
      ensures State() == Apply(old(State()), me, AddPermit(users))
    {
      if |users| == 1 && Ident(users[0]) == me {
        SetPDMode(me, DENY_ALL);
        return;
      }
      SetPDMode(me, PERMIT_SOME);
      ExecuteEach(Permitting, me, users);
    }

    method DelDenyListEntries(me: Name, users: seq<string>)
      modifies this
      ensures State() == Apply(old(State()), me, DelDeny(users))
    {
      ExecuteEach(Undenying, me, users);
    }

    method DelPermListEntries(me: Name, users: seq<string>)
      modifies this
      ensures State() == Apply(old(State()), me, DelPermit(users))
    {
      ExecuteEach(Unpermitting, me, users);
    }

    method RegisterBuddyList(me: Name)
      modifies this
      ensures State() == Apply(old(State()), me, Register)
    {
      if me !in modes { modes := modes[me := Mode(PERMIT_ALL, false)]; }
    }

    method UnregisterBuddyList(me: Name)
      modifies this
      ensures State() == Apply(old(State()), me, Unregister)
    {
      modes := modes - {me};
      client := map p | p in client && p.me != me :: client[p];
    }
  }
}
