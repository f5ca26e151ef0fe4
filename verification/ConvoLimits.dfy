/**
 How often one user may warn another: at most once for each message received and three times an hour, counted in
 three-slot rings that live in caches whose entries expire an hour after they were made. Times are ticks since the
 zero time.
 */
module ConvoLimits {
  import opened Common

  const HOUR: int := 3_600_000_000_000

  // How many times of the log lie after start.
  function Count(log: seq<int>, start: int): (n: nat)
    ensures n <= |log|
  {
    if log == [] then 0 else Count(log[..|log| - 1], start) + if log[|log| - 1] > start then 1 else 0
  }

  // What a ring of three keeps of its log.
  function Last3(log: seq<int>): seq<int> {
    if |log| <= 3 then log else log[|log| - 3..]
  }

  predicate Sorted(log: seq<int>) {
    forall i, j :: 0 <= i < j < |log| ==> log[i] <= log[j]
  }

  lemma {:induction false} CountSplit(a: seq<int>, b: seq<int>, start: int)
    ensures Count(a + b, start) == Count(a, start) + Count(b, start)
  {
    if b == [] {
      assert a + b == a;
    } else {
      assert (a + b)[..|a + b| - 1] == a + b[..|b| - 1];
      CountSplit(a, b[..|b| - 1], start);
    }
  }

  lemma {:induction false} CountMonotone(log: seq<int>, s: int, t: int)
    requires s <= t
    ensures Count(log, t) <= Count(log, s)
  {
    if log != [] { CountMonotone(log[..|log| - 1], s, t); }
  }

  lemma {:induction false} CountNone(log: seq<int>, start: int)
    requires forall i :: 0 <= i < |log| ==> log[i] <= start
    ensures Count(log, start) == 0
  {
    if log != [] { CountNone(log[..|log| - 1], start); }
  }

  lemma {:induction false} CountAll(log: seq<int>, start: int)
    requires forall i :: 0 <= i < |log| ==> log[i] > start
    ensures Count(log, start) == |log|
  {
    if log != [] { CountAll(log[..|log| - 1], start); }
  }

  lemma {:induction false} CountSome(log: seq<int>, i: nat, start: int)
    requires i < |log| && log[i] > start
    ensures Count(log, start) > 0
  {
    var n := |log| - 1;
    if i < n { CountSome(log[..n], i, start); }
  }

  lemma {:induction false} CountNotAll(log: seq<int>, i: nat, start: int)
    requires i < |log| && log[i] <= start
    ensures Count(log, start) < |log|
  {
    var n := |log| - 1;
    if i < n { CountNotAll(log[..n], i, start); }
  }

  // No time before the last three is later than one of them.
  predicate LastAreLatest(log: seq<int>) {
    forall i, j :: 0 <= i < |log| - 3 <= j < |log| ==> log[i] <= log[j]
  }

  // The ring counts what the whole log would, up to its three slots, for every start of the hour if and only if its
  // three times are the latest ones.
  lemma RingCountsExactly(log: seq<int>)
    ensures (forall start :: Count(Last3(log), start) == Min(3, Count(log, start))) <==> LastAreLatest(log)
  {
    if LastAreLatest(log) {
      forall start ensures Count(Last3(log), start) == Min(3, Count(log, start)) { LatestCount(log, start); }
    } else {
      var k := |log| - 3;
      var i, j :| 0 <= i < k <= j < |log| && log[i] > log[j];
      assert log == log[..k] + log[k..];
      CountSplit(log[..k], log[k..], log[j]);
      CountSome(log[..k], i, log[j]);
      CountNotAll(log[k..], j - k, log[j]);
      assert Count(Last3(log), log[j]) != Min(3, Count(log, log[j]));
    }
  }

  lemma LatestCount(log: seq<int>, start: int)
    requires LastAreLatest(log)
    ensures Count(Last3(log), start) == Min(3, Count(log, start))
  {
    if |log| > 3 {
      var k := |log| - 3;
      assert log == log[..k] + log[k..];
      CountSplit(log[..k], log[k..], start);
      if j :| k <= j < |log| && log[j] <= start { CountNone(log[..k], start); } else { CountAll(log[k..], start); }
    }
  }

  // So it does with a clock that never runs backwards.
  lemma RingCounts(log: seq<int>, start: int)
    requires Sorted(log)
    ensures Count(Last3(log), start) == Min(3, Count(log, start))
  {
    RingCountsExactly(log);
  }

  // With a clock that runs backwards it need not: later messages from the past push a recent one out.
  lemma RingNeedsOrder()
    ensures var log, now := [2 * HOUR, HOUR, HOUR, HOUR], 2 * HOUR;
      Count(Last3(log), now - HOUR) == 0 && Count(log, now - HOUR) == 1
  {
    var past := [HOUR, HOUR, HOUR];
    assert Last3([2 * HOUR] + past) == past && [2 * HOUR] + past == [2 * HOUR, HOUR, HOUR, HOUR];
    CountNone(past, HOUR);
    CountSplit([2 * HOUR], past, HOUR);
    CountAll([2 * HOUR], HOUR);
  }

  // ---- The tracker ----

  datatype Entry = Entry(log: seq<int>, expires: int)

  type Cache = map<string, Entry>

  datatype Tracker = Tracker(convos: Cache, warns: Cache)

  const EMPTY := Tracker(map[], map[])

  function Get(c: Cache, key: string, now: int): Option<Entry> {
    if key in c && now <= c[key].expires then Some(c[key]) else None
  }

  // The cached entry, or an empty one that will live for an hour.
  function GetOrNew(c: Cache, key: string, now: int): Entry {
    match Get(c, key, now) case Some(e) => e case None => Entry([], now + HOUR)
  }

  function JoinedKey(sender: string, recip: string): string { sender + recip }

  // Who sent messages to whom, and so whom the recipient may warn.
  datatype Pair = Pair(sender: string, recip: string) {
    function Key(): string { JoinedKey(sender, recip) }
  }

  function TrackConvo(t: Tracker, now: int, key: string): Tracker {
    var e := GetOrNew(t.convos, key, now);
    t.(convos := t.convos[key := e.(log := e.log + [now])])
  }

  datatype Verdict = Verdict(tracker: Tracker, allowed: bool)

  function TrackWarn(t: Tracker, now: int, key: string): Verdict {
    match Get(t.convos, key, now)
    case None => Verdict(t, false)
    case Some(c) =>
      var w := GetOrNew(t.warns, key, now);
      if Count(Last3(c.log), now - HOUR) <= Count(Last3(w.log), now - HOUR)
      then Verdict(t.(warns := t.warns[key := w]), false)
      else Verdict(t.(warns := t.warns[key := w.(log := w.log + [now])]), true)
  }

  // ---- Runs ----

  // A message of a pair, and a warning of its sender by its recipient.
  datatype Event = Convo(now: int, pair: Pair) | Warn(now: int, pair: Pair) {
    function Key(): string { pair.Key() }
  }

  function Run(es: seq<Event>): Tracker {
    if es == [] then EMPTY
    else After(Run(es[..|es| - 1]), es[|es| - 1])
  }

  function After(t: Tracker, e: Event): Tracker {
    match e
    case Convo(now, pair) => TrackConvo(t, now, pair.Key())
    case Warn(now, pair) => TrackWarn(t, now, pair.Key()).tracker
  }

  // When the messages under a key came, and when its warnings were allowed.
  function Messages(es: seq<Event>, key: string): seq<int> {
    if es == [] then []
    else Messages(es[..|es| - 1], key) + if es[|es| - 1].Convo? && es[|es| - 1].Key() == key then [es[|es| - 1].now] else []
  }

  function Allowed(es: seq<Event>, key: string): seq<int> {
    if es == [] then []
    else Allowed(es[..|es| - 1], key) + if AllowedLast(es, key) then [es[|es| - 1].now] else []
  }

  predicate AllowedLast(es: seq<Event>, key: string)
    requires es != []
  {
    var e := es[|es| - 1];
    e.Warn? && e.Key() == key && TrackWarn(Run(es[..|es| - 1]), e.now, key).allowed
  }

  predicate Clocked(es: seq<Event>) {
    forall i, j :: 0 <= i < j < |es| ==> es[i].now <= es[j].now
  }

  predicate Within(log: seq<int>, lo: int, hi: int) {
    forall i :: 0 <= i < |log| ==> lo <= log[i] <= hi
  }

  // The entry's log is the tail of the full log, made since the entry was; `before` is the rest.
  predicate TailOf(e: Entry, full: seq<int>, before: seq<int>, now: int) {
    && full == before + e.log
    && Sorted(e.log) && Within(e.log, e.expires - HOUR, Min(now, e.expires))
    && e.expires - HOUR <= now
    && forall i :: 0 <= i < |before| ==> before[i] <= e.expires - HOUR
  }

  // At the last warning of the log, the hour held at most three.
  predicate Restrained(log: seq<int>) {
    log != [] ==> Count(log, log[|log| - 1] - HOUR) <= 3
  }

  ghost predicate ConvoInv(t: Tracker, full: seq<int>, key: string, now: int) {
    if key in t.convos then exists before :: TailOf(t.convos[key], full, before, now)
    else full == []
  }

  ghost predicate WarnInv(t: Tracker, full: seq<int>, key: string, now: int) {
    if key in t.warns then exists before :: WarnTail(t.warns[key], full, before, now)
    else full == []
  }

  predicate WarnTail(e: Entry, full: seq<int>, before: seq<int>, now: int) {
    TailOf(e, full, before, now) && Restrained(e.log) && Count(before, e.expires - 2 * HOUR) <= 3
  }

  lemma TailLater(e: Entry, full: seq<int>, before: seq<int>, now: int, later: int)
    requires TailOf(e, full, before, now) && now <= later
    ensures TailOf(e, full, before, later)
  {
  }

  // An expired entry is replaced by an empty one: all of the full log is from before.
  lemma TailRenewed(e: Entry, full: seq<int>, before: seq<int>, now: int, later: int)
    requires TailOf(e, full, before, now) && now <= later && e.expires < later
    ensures TailOf(Entry([], later + HOUR), full, full, later)
  {
    assert full == full + [];
    forall i | 0 <= i < |full| ensures full[i] <= later {
      if i >= |before| { assert full[i] == e.log[i - |before|]; }
    }
  }

  lemma TailExtended(e: Entry, full: seq<int>, before: seq<int>, now: int)
    requires TailOf(e, full, before, now) && now <= e.expires
    ensures TailOf(e.(log := e.log + [now]), full + [now], before, now)
  {
    assert full + [now] == before + (e.log + [now]);
  }

  // The entry that a lookup at a later time works with, as a tail of the log.
  lemma ConvoFound(t: Tracker, full: seq<int>, key: string, now: int, later: int) returns (before: seq<int>)
    requires ConvoInv(t, full, key, now) && now <= later
    ensures TailOf(GetOrNew(t.convos, key, later), full, before, later)
  {
    if key in t.convos {
      before :| TailOf(t.convos[key], full, before, now);
      TailLater(t.convos[key], full, before, now, later);
      if t.convos[key].expires < later {
        TailRenewed(t.convos[key], full, before, now, later);
        before := full;
      }
    } else {
      before := [];
    }
  }

  lemma WarnFound(t: Tracker, full: seq<int>, key: string, now: int, later: int) returns (before: seq<int>)
    requires WarnInv(t, full, key, now) && now <= later
    ensures WarnTail(GetOrNew(t.warns, key, later), full, before, later)
  {
    if key in t.warns {
      var e := t.warns[key];
      before :| WarnTail(e, full, before, now);
      TailLater(e, full, before, now, later);
      if e.expires < later {
        TailRenewed(e, full, before, now, later);
        RenewedCount(e, full, before, now, later);
        before := full;
      }
    } else {
      before := [];
    }
  }

  // Of the warnings from before a renewal, only those of the expired entry can be less than an hour old.
  lemma RenewedCount(e: Entry, full: seq<int>, before: seq<int>, now: int, later: int)
    requires WarnTail(e, full, before, now) && now <= later && e.expires < later
    ensures Count(full, later - HOUR) <= 3
  {
    CountSplit(before, e.log, later - HOUR);
    CountNone(before, later - HOUR);
    if e.log != [] {
      CountMonotone(e.log, e.log[|e.log| - 1] - HOUR, later - HOUR);
    }
  }

  // What an allowed warning means for the entry's own log: counting it, the hour holds at most three warnings and no
  // more than it holds messages.
  lemma AllowedWarning(c: Entry, w: Entry, now: int)
    requires Sorted(c.log) && Sorted(w.log) && Within(w.log, w.expires - HOUR, now)
    requires Count(Last3(c.log), now - HOUR) > Count(Last3(w.log), now - HOUR)
    ensures var w' := w.log + [now];
      Count(w', now - HOUR) == Count(w.log, now - HOUR) + 1 <= Min(3, Count(c.log, now - HOUR))
  {
    RingCounts(c.log, now - HOUR);
    RingCounts(w.log, now - HOUR);
    assert (w.log + [now])[..|w.log|] == w.log;
  }

  lemma {:induction false} RunInv(es: seq<Event>, key: string)
    requires Clocked(es) && es != []
    ensures var now := es[|es| - 1].now;
      && ConvoInv(Run(es), Messages(es, key), key, now)
      && WarnInv(Run(es), Allowed(es, key), key, now)
  {
    var prefix, e := es[..|es| - 1], es[|es| - 1];
    var t := Run(prefix);
    var was := if prefix == [] then e.now else prefix[|prefix| - 1].now;
    if prefix != [] { RunInv(prefix, key); }
    assert ConvoInv(t, Messages(prefix, key), key, was) && WarnInv(t, Allowed(prefix, key), key, was);
    StepInv(t, Messages(prefix, key), Allowed(prefix, key), key, was, e);
    assert Messages(prefix, key) + [] == Messages(prefix, key) && Allowed(prefix, key) + [] == Allowed(prefix, key);
  }

  lemma StepInv(t: Tracker, ms: seq<int>, ws: seq<int>, key: string, was: int, e: Event)
    requires ConvoInv(t, ms, key, was) && WarnInv(t, ws, key, was) && was <= e.now
    ensures ConvoInv(After(t, e), if e.Convo? && e.Key() == key then ms + [e.now] else ms, key, e.now)
    ensures WarnInv(After(t, e),
              if e.Warn? && e.Key() == key && TrackWarn(t, e.now, key).allowed then ws + [e.now] else ws, key, e.now)
  {
    StepConvos(t, ms, key, was, e);
    StepWarns(t, ms, ws, key, was, e);
  }

  lemma StepConvos(t: Tracker, ms: seq<int>, key: string, was: int, e: Event)
    requires ConvoInv(t, ms, key, was) && was <= e.now
    ensures ConvoInv(After(t, e), if e.Convo? && e.Key() == key then ms + [e.now] else ms, key, e.now)
  {
    if e.Convo? && e.Key() == key {
      var before := ConvoFound(t, ms, key, was, e.now);
      var c := GetOrNew(t.convos, key, e.now);
      TailExtended(c, ms, before, e.now);
      assert After(t, e).convos[key] == c.(log := c.log + [e.now]);
    } else {
      ConvoLater(t, ms, key, was, e.now);
    }
  }

  lemma StepWarns(t: Tracker, ms: seq<int>, ws: seq<int>, key: string, was: int, e: Event)
    requires ConvoInv(t, ms, key, was) && WarnInv(t, ws, key, was) && was <= e.now
    ensures WarnInv(After(t, e),
              if e.Warn? && e.Key() == key && TrackWarn(t, e.now, key).allowed then ws + [e.now] else ws, key, e.now)
  {
    if e.Warn? && e.Key() == key && Get(t.convos, key, e.now).Some? {
      WarnStep(t, ms, ws, key, was, e.now);
    } else {
      WarnLater(t, ws, key, was, e.now);
      assert key in After(t, e).warns <==> key in t.warns;
      assert key in t.warns ==> After(t, e).warns[key] == t.warns[key];
    }
  }

  lemma ConvoLater(t: Tracker, ms: seq<int>, key: string, was: int, now: int)
    requires ConvoInv(t, ms, key, was) && was <= now
    ensures ConvoInv(t, ms, key, now)
  {
    if key in t.convos {
      var before :| TailOf(t.convos[key], ms, before, was);
      TailLater(t.convos[key], ms, before, was, now);
    }
  }

  lemma WarnLater(t: Tracker, ws: seq<int>, key: string, was: int, now: int)
    requires WarnInv(t, ws, key, was) && was <= now
    ensures WarnInv(t, ws, key, now)
  {
    if key in t.warns {
      var before :| WarnTail(t.warns[key], ws, before, was);
      TailLater(t.warns[key], ws, before, was, now);
      assert WarnTail(t.warns[key], ws, before, now);
    }
  }

  lemma WarnStep(t: Tracker, ms: seq<int>, ws: seq<int>, key: string, was: int, now: int)
    requires ConvoInv(t, ms, key, was) && WarnInv(t, ws, key, was) && was <= now && Get(t.convos, key, now).Some?
    ensures var v := TrackWarn(t, now, key);
            WarnInv(v.tracker, if v.allowed then ws + [now] else ws, key, now)
  {
    var b := ConvoFound(t, ms, key, was, now);
    var before := WarnFound(t, ws, key, was, now);
    var c, w := t.convos[key], GetOrNew(t.warns, key, now);
    if Count(Last3(c.log), now - HOUR) > Count(Last3(w.log), now - HOUR) {
      AllowedWarning(c, w, now);
      ExtendedTail(w, ws, before, now);
      assert TrackWarn(t, now, key).tracker.warns[key] == w.(log := w.log + [now]);
    } else {
      assert TrackWarn(t, now, key).tracker.warns[key] == w;
    }
  }

  lemma ExtendedTail(w: Entry, ws: seq<int>, before: seq<int>, now: int)
    requires WarnTail(w, ws, before, now) && now <= w.expires
    requires Count(w.log + [now], now - HOUR) <= 3
    ensures WarnTail(w.(log := w.log + [now]), ws + [now], before, now)
  {
    TailExtended(w, ws, before, now);
  }

  // After an allowed warning the entry holds the new log.
  lemma AllowedEntry(t: Tracker, key: string, now: int)
    requires TrackWarn(t, now, key).allowed
    ensures Get(t.convos, key, now).Some?
    ensures var w := GetOrNew(t.warns, key, now);
      && TrackWarn(t, now, key).tracker.warns[key] == w.(log := w.log + [now])
      && Count(Last3(t.convos[key].log), now - HOUR) > Count(Last3(w.log), now - HOUR)
  {
  }

  lemma WarningsInHour(w: Entry, ws: seq<int>, before: seq<int>, now: int)
    requires WarnTail(w, ws, before, now)
    ensures Count(ws + [now], now - HOUR) <= 3 + Count(w.log + [now], now - HOUR)
  {
    CountMonotone(before, w.expires - 2 * HOUR, now - HOUR);
    assert ws + [now] == before + (w.log + [now]);
    assert Count(before, now - HOUR) <= 3;
    SplitBound(before, w.log + [now], ws + [now], now - HOUR);
  }

  lemma SplitBound(before: seq<int>, tail: seq<int>, all: seq<int>, start: int)
    requires all == before + tail && Count(before, start) <= 3
    ensures Count(all, start) <= 3 + Count(tail, start)
  {
    CountSplit(before, tail, start);
  }

  // In the hour up to now: at most three warnings of the entry and at most one for each message, and at most three
  // warnings from before the entry.
  predicate Limits(log: seq<int>, ms: seq<int>, ws: seq<int>, now: int) {
    && Count(log, now - HOUR) <= Min(3, Count(ms, now - HOUR))
    && Count(ws, now - HOUR) <= 3 + Count(log, now - HOUR) <= 6
  }

  lemma MessagesInHour(c: Entry, ms: seq<int>, before: seq<int>, now: int)
    requires TailOf(c, ms, before, now)
    ensures Count(c.log, now - HOUR) <= Count(ms, now - HOUR)
  {
    CountSplit(before, c.log, now - HOUR);
  }

  lemma LimitsFrom(c: Entry, w: Entry, ms: seq<int>, ws: seq<int>, b: seq<int>, before: seq<int>, now: int)
    requires TailOf(c, ms, b, now) && WarnTail(w, ws, before, now)
    requires Count(Last3(c.log), now - HOUR) > Count(Last3(w.log), now - HOUR)
    ensures Limits(w.log + [now], ms, ws + [now], now)
  {
    MessagesInHour(c, ms, b, now);
    WarningsInHour(w, ws, before, now);
    AllowedWarning(c, w, now);
    LimitsMet(w.log + [now], ms, ws + [now], Count(c.log, now - HOUR), now);
  }

  lemma LimitsMet(log: seq<int>, ms: seq<int>, ws: seq<int>, n: nat, now: int)
    requires Count(log, now - HOUR) <= Min(3, n) && n <= Count(ms, now - HOUR)
    requires Count(ws, now - HOUR) <= 3 + Count(log, now - HOUR)
    ensures Limits(log, ms, ws, now)
  {
  }

  lemma AllowedInHour(t: Tracker, ms: seq<int>, ws: seq<int>, key: string, was: int, now: int)
    requires ConvoInv(t, ms, key, was) && WarnInv(t, ws, key, was) && was <= now && TrackWarn(t, now, key).allowed
    ensures Limits(GetOrNew(t.warns, key, now).log + [now], ms, ws + [now], now)
  {
    AllowedEntry(t, key, now);
    assert GetOrNew(t.convos, key, now) == t.convos[key];
    var b := ConvoFound(t, ms, key, was, now);
    var before := WarnFound(t, ws, key, was, now);
    LimitsFrom(t.convos[key], GetOrNew(t.warns, key, now), ms, ws, b, before, now);
  }

  // The last event of a run, when it is an allowed warning.
  lemma LastAllowed(es: seq<Event>, key: string)
    requires es != [] && AllowedLast(es, key)
    ensures var prefix, now := es[..|es| - 1], es[|es| - 1].now;
      && TrackWarn(Run(prefix), now, key).allowed
      && key in Run(es).warns
      && Run(es).warns[key].log == GetOrNew(Run(prefix).warns, key, now).log + [now]
      && Messages(es, key) == Messages(prefix, key)
      && Allowed(es, key) == Allowed(prefix, key) + [now]
  {
    AllowedEntry(Run(es[..|es| - 1]), key, es[|es| - 1].now);
    assert Messages(es, key) == Messages(es[..|es| - 1], key) + [];
  }

  lemma InvBefore(es: seq<Event>, key: string) returns (was: int)
    requires Clocked(es) && es != []
    ensures var prefix := es[..|es| - 1];
      && was <= es[|es| - 1].now
      && ConvoInv(Run(prefix), Messages(prefix, key), key, was)
      && WarnInv(Run(prefix), Allowed(prefix, key), key, was)
  {
    var prefix := es[..|es| - 1];
    if prefix == [] {
      was := es[|es| - 1].now;
    } else {
      was := prefix[|prefix| - 1].now;
      RunInv(prefix, key);
    }
  }

  // In any run whose clock never runs backwards, the hour up to an allowed warning holds, that warning counted, at
  // most three warnings since the warnings' entry was made, no more of them than messages in the hour, and at most
  // six warnings in all.
  lemma WarningsPerHour(es: seq<Event>, key: string)
    requires Clocked(es) && es != [] && AllowedLast(es, key)
    ensures key in Run(es).warns
         && Limits(Run(es).warns[key].log, Messages(es, key), Allowed(es, key), es[|es| - 1].now)
  {
    var prefix, now := es[..|es| - 1], es[|es| - 1].now;
    LastAllowed(es, key);
    var was := InvBefore(es, key);
    AllowedInHour(Run(prefix), Messages(prefix, key), Allowed(prefix, key), key, was, now);
  }
}
