/** The conversation tracker as it runs: caches of three-slot rings, tied to the logs of ConvoLimits. */
module ConvoTracker {
  import opened Common
  import opened ConvoLimits
  import ConvoPairs

  // A ring of the last three times; slots not yet used hold the zero time.
  class RingBuffer {
    var cur: nat
    const vals: array<int>
    ghost var log: seq<int>

    ghost predicate Valid()
      reads this, vals
    {
      && vals.Length == 3 && cur == |log| % 3
      && (forall i :: 0 <= i < |log| && |log| - 3 <= i ==> vals[i % 3] == log[i])
      && (forall j :: |log| <= j < 3 ==> vals[j] == 0)
    }

    constructor ()
      ensures Valid() && log == [] && fresh(vals)
    {
      cur, log := 0, [];
      vals := new int[3](_ => 0);
    }

    method Put(v: int)
      requires Valid()
      modifies this, vals
      ensures Valid() && log == old(log) + [v]
    {
      vals[cur] := v;
      cur := (cur + 1) % 3;
      log := log + [v];
    }

    // The loop that counts the slots after a time.
    method CountAfter(start: int) returns (n: nat)
      requires Valid() && start >= 0
      ensures n == Count(Last3(log), start)
    {
      n := 0;
      for i := 0 to 3
        invariant n == SlotsAfter(vals, i, start)
      {
        if vals[i] > start { n := n + 1; }
      }
      SlotsAreLast3(start);
    }

    lemma SlotsAreLast3(start: int)
      requires Valid() && start >= 0
      ensures SlotsAfter(vals, 3, start) == Count(Last3(log), start)
    {
      var l := Last3(log);
      assert SlotsAfter(vals, 1, start) == IsAfter(vals[0], start);
      assert SlotsAfter(vals, 3, start) == IsAfter(vals[0], start) + IsAfter(vals[1], start) + IsAfter(vals[2], start);
      if |log| >= 3 {
        var k := |log| - 3;
        assert l == [log[k], log[k + 1], log[k + 2]];
        assert vals[k % 3] == log[k] && vals[(k + 1) % 3] == log[k + 1] && vals[(k + 2) % 3] == log[k + 2];
        CountThree(log[k], log[k + 1], log[k + 2], start);
      } else if |log| == 2 {
        assert l == [log[0], log[1]] && vals[0 % 3] == log[0] && vals[1 % 3] == log[1] && vals[2] == 0;
        CountTwo(log[0], log[1], start);
      } else if |log| == 1 {
        assert l == [log[0]];
      }
    }
  }

  function IsAfter(v: int, start: int): nat { if v > start then 1 else 0 }

  ghost function SlotsAfter(vals: array<int>, i: nat, start: int): nat
    requires i <= vals.Length
    reads vals
  {
    if i == 0 then 0 else SlotsAfter(vals, i - 1, start) + IsAfter(vals[i - 1], start)
  }

  lemma CountThree(a: int, b: int, c: int, start: int)
    ensures Count([a, b, c], start) == IsAfter(a, start) + IsAfter(b, start) + IsAfter(c, start)
  {
    assert [a, b, c][..2] == [a, b];
    CountTwo(a, b, start);
  }

  lemma CountTwo(a: int, b: int, start: int)
    ensures Count([a, b], start) == IsAfter(a, start) + IsAfter(b, start)
  {
    assert [a, b][..1] == [a];
    assert Count([a], start) == IsAfter(a, start);
  }

  datatype CacheItem = CacheItem(ring: RingBuffer, expires: int)

  // A cache whose entries expire; no two of them share a ring or its slots. `state` is what it stands for.
  class RingCache {
    var items: map<string, CacheItem>
    ghost var state: Cache
    ghost var Repr: set<object>

    ghost predicate Valid()
      reads this, Repr
      ensures Valid() ==> this in Repr
    {
      && this in Repr
      && items.Keys == state.Keys
      && (forall k <- items ::
            items[k].ring in Repr && items[k].ring.vals in Repr && this !in {items[k].ring as object, items[k].ring.vals}
            && items[k].ring.Valid() && state[k] == Entry(items[k].ring.log, items[k].expires))
      && (forall j, k | j in items && k in items && j != k ::
            items[j].ring != items[k].ring && items[j].ring.vals != items[k].ring.vals)
    }

    constructor ()
      ensures Valid() && fresh(Repr) && state == map[]
    {
      items, state := map[], map[];
      Repr := {this};
    }

    predicate Live(key: string, now: int)
      reads this
    {
      key in items && now <= items[key].expires
    }

    // Makes sure of a live entry.
    method GetOrNew(now: int, key: string)
      requires Valid()
      modifies this
      ensures Valid() && fresh(Repr - old(Repr)) && old(Repr) <= Repr && key in items
      ensures state == old(state)[key := ConvoLimits.GetOrNew(old(state), key, now)]
    {
      if !Live(key, now) {
        var ring := new RingBuffer();
        items := items[key := CacheItem(ring, now + HOUR)];
        state := state[key := Entry([], now + HOUR)];
        Repr := Repr + {ring, ring.vals};
      }
    }

    method CountAfter(key: string, start: int) returns (n: nat)
      requires Valid() && key in items && start >= 0
      ensures n == Count(Last3(state[key].log), start)
    {
      n := items[key].ring.CountAfter(start);
    }

    // Writing to one ring changes the log of that entry alone.
    method Record(key: string, now: int)
      requires Valid() && key in items
      modifies this`state, items[key].ring, items[key].ring.vals
      ensures Valid() && Repr == old(Repr)
      ensures state == old(state)[key := old(state)[key].(log := old(state)[key].log + [now])]
    {
      items[key].ring.Put(now);
      state := state[key := state[key].(log := state[key].log + [now])];
    }

    method Add(now: int, key: string)
      requires Valid()
      modifies Repr
      ensures Valid() && fresh(Repr - old(Repr)) && old(Repr) <= Repr
      ensures var e := ConvoLimits.GetOrNew(old(state), key, now);
              state == old(state)[key := e.(log := e.log + [now])]
    {
      GetOrNew(now, key);
      Record(key, now);
    }

    // Adds a time to the entry unless its ring already counts as many as the limit.
    method AddBelow(limit: nat, now: int, key: string) returns (added: bool)
      requires Valid() && now >= HOUR
      modifies Repr
      ensures Valid() && fresh(Repr - old(Repr)) && old(Repr) <= Repr
      ensures var e := ConvoLimits.GetOrNew(old(state), key, now);
              && added == (limit > Count(Last3(e.log), now - HOUR))
              && state == old(state)[key := if added then e.(log := e.log + [now]) else e]
    {
      GetOrNew(now, key);
      ghost var e := state[key];
      added := RecordBelow(limit, key, now);
      assert added ==> state[key] == e.(log := e.log + [now]);
    }

    method RecordBelow(limit: nat, key: string, now: int) returns (added: bool)
      requires Valid() && key in items && now >= HOUR
      modifies this`state, items[key].ring, items[key].ring.vals
      ensures Valid() && Repr == old(Repr)
      ensures added == (limit > Count(Last3(old(state)[key].log), now - HOUR))
      ensures added ==> state == old(state)[key := old(state)[key].(log := old(state)[key].log + [now])]
      ensures !added ==> state == old(state)
    {
      var count := CountAfter(key, now - HOUR);
      added := limit > count;
      if added { Record(key, now); }
    }
  }

  // A warning with a live message entry, in terms of the warnings' cache alone.
  lemma WarnWithEntry(t: ConvoLimits.Tracker, now: int, key: string, count: nat)
    requires Get(t.convos, key, now).Some? && count == Count(Last3(t.convos[key].log), now - HOUR)
    ensures var e := ConvoLimits.GetOrNew(t.warns, key, now);
            var allowed := count > Count(Last3(e.log), now - HOUR);
            ConvoLimits.TrackWarn(t, now, key)
              == Verdict(t.(warns := t.warns[key := if allowed then e.(log := e.log + [now]) else e]), allowed)
  {
  }

  class Tracker {
    const convos: RingCache
    const warns: RingCache

    ghost predicate Valid()
      reads this, convos, warns, convos.Repr, warns.Repr
    {
      convos.Valid() && warns.Valid() && convos.Repr !! warns.Repr
    }

    ghost function State(): ConvoLimits.Tracker
      requires Valid()
      reads this, convos, warns, convos.Repr, warns.Repr
    {
      ConvoLimits.Tracker(convos.state, warns.state)
    }

    constructor ()
      ensures Valid() && State() == EMPTY && fresh(convos.Repr) && fresh(warns.Repr)
    {
      convos := new RingCache();
      warns := new RingCache();
    }

    method TrackConvo(now: int, sender: string, recip: string)
      requires Valid() && now >= HOUR
      modifies convos.Repr
      ensures Valid() && fresh(convos.Repr - old(convos.Repr))
      ensures State() == ConvoLimits.TrackConvo(old(State()), now, JoinedKey(sender, recip))
    {
      var key := JoinedKey(sender, recip);
      convos.Add(now, key);
    }

    method TrackWarn(now: int, warner: string, warnee: string) returns (allowed: bool)
      requires Valid() && now >= HOUR
      modifies warns.Repr
      ensures Valid() && fresh(warns.Repr - old(warns.Repr))
      ensures Verdict(State(), allowed) == ConvoLimits.TrackWarn(old(State()), now, JoinedKey(warnee, warner))
    {
      var key := JoinedKey(warnee, warner);
      if convos.Live(key, now) {
        allowed := WarnLive(now, key);
      } else {
        allowed := false;
      }
    }

    method WarnLive(now: int, key: string) returns (allowed: bool)
      requires Valid() && now >= HOUR && convos.Live(key, now)
      modifies warns.Repr
      ensures Valid() && fresh(warns.Repr - old(warns.Repr))
      ensures Verdict(State(), allowed) == ConvoLimits.TrackWarn(old(State()), now, key)
    {
      var convoCount := convos.CountAfter(key, now - HOUR);
      WarnWithEntry(State(), now, key, convoCount);
      allowed := warns.AddBelow(convoCount, now, key);
    }
  }

  // On a new tracker: after 12345 wrote to 678901, the warning of 123456 by 78901 is allowed.
  method WarnStranger() returns (allowed: bool)
    ensures allowed
  {
    var tracker := new Tracker();
    tracker.TrackConvo(HOUR, "12345", "678901");
    allowed := tracker.TrackWarn(HOUR + 1, "78901", "123456");
    ConvoPairs.NumbersClash();
  }
}
