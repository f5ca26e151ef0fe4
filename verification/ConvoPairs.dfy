/**
 The warning limits for pairs of users. Two pairs can share a key, and a cache entry lives for one hour from when it was
 made; both decide whether the limits hold.
 */
module ConvoPairs {
  import opened Common
  import opened ConvoLimits

  // ---- When two pairs share a key ----

  // The one sender's name begins the other's, and what is left of that begins the one recipient's name.
  predicate Overlaps(a: Pair, b: Pair) {
    |a.sender| < |b.sender| && a.sender <= b.sender && a.recip == b.sender[|a.sender|..] + b.recip
  }

  lemma OverlapKeys(a: Pair, b: Pair)
    requires |a.sender| <= |b.sender| && a.Key() == b.Key()
    ensures a == b || Overlaps(a, b)
  {
    var k := a.Key();
    assert a.sender == k[..|a.sender|] && b.sender == k[..|b.sender|];
    assert a.recip == k[|a.sender|..] && b.recip == k[|b.sender|..];
    assert k[|a.sender|..] == b.sender[|a.sender|..] + b.recip;
  }

  // Two pairs share a key if and only if they are equal or overlap.
  lemma KeysClashExactly(a: Pair, b: Pair)
    ensures a.Key() == b.Key() <==> a == b || Overlaps(a, b) || Overlaps(b, a)
  {
    if a.Key() == b.Key() {
      if |a.sender| <= |b.sender| { OverlapKeys(a, b); } else { OverlapKeys(b, a); }
    }
    if Overlaps(a, b) { assert b.sender == a.sender + b.sender[|a.sender|..]; }
    if Overlaps(b, a) { assert a.sender == b.sender + a.sender[|b.sender|..]; }
  }

  // ---- The logs of a pair ----

  function MessagesOf(es: seq<Event>, p: Pair): seq<int> {
    if es == [] then []
    else
      var e := es[|es| - 1];
      MessagesOf(es[..|es| - 1], p) + if e.Convo? && e.pair == p then [e.now] else []
  }

  function AllowedOf(es: seq<Event>, p: Pair): seq<int> {
    if es == [] then []
    else AllowedOf(es[..|es| - 1], p) + if AllowedFor(es, p) then [es[|es| - 1].now] else []
  }

  // The run ends in an allowed warning of the pair.
  predicate AllowedFor(es: seq<Event>, p: Pair) {
    es != [] && es[|es| - 1].pair == p && AllowedLast(es, p.Key())
  }

  predicate Over(es: seq<Event>, pairs: set<Pair>) {
    forall i :: 0 <= i < |es| ==> es[i].pair in pairs
  }

  // No other pair shares p's key.
  predicate Distinctive(pairs: set<Pair>, p: Pair) {
    forall q <- pairs :: q.Key() == p.Key() ==> q == p
  }

  lemma {:induction false} AloneLogs(es: seq<Event>, p: Pair)
    requires forall i :: 0 <= i < |es| && es[i].Key() == p.Key() ==> es[i].pair == p
    ensures MessagesOf(es, p) == Messages(es, p.Key()) && AllowedOf(es, p) == Allowed(es, p.Key())
    ensures es != [] && AllowedLast(es, p.Key()) ==> AllowedFor(es, p)
  {
    if es != [] { AloneLogs(es[..|es| - 1], p); }
  }

  lemma DistinctiveLogs(pairs: set<Pair>, es: seq<Event>, p: Pair)
    requires Over(es, pairs) && Distinctive(pairs, p)
    ensures MessagesOf(es, p) == Messages(es, p.Key()) && AllowedOf(es, p) == Allowed(es, p.Key())
    ensures es != [] && AllowedLast(es, p.Key()) ==> AllowedFor(es, p)
  {
    AloneLogs(es, p);
  }

  // ---- The limits of one entry, for a pair ----

  predicate PairLimited(es: seq<Event>, p: Pair)
    requires es != []
  {
    p.Key() in Run(es).warns
    && Limits(Run(es).warns[p.Key()].log, MessagesOf(es, p), AllowedOf(es, p), es[|es| - 1].now)
  }

  lemma PairLimits(pairs: set<Pair>, es: seq<Event>, p: Pair)
    requires Clocked(es) && Over(es, pairs) && Distinctive(pairs, p) && AllowedFor(es, p)
    ensures PairLimited(es, p)
  {
    DistinctiveLogs(pairs, es, p);
    WarningsPerHour(es, p.Key());
  }

  // What one more event does to the tracker and to the logs of a pair.
  lemma Appended(es: seq<Event>, e: Event, p: Pair)
    ensures Run(es + [e]) == After(Run(es), e)
    ensures MessagesOf(es + [e], p) == MessagesOf(es, p) + if e.Convo? && e.pair == p then [e.now] else []
    ensures AllowedFor(es + [e], p) <==> e.Warn? && e.pair == p && TrackWarn(Run(es), e.now, p.Key()).allowed
    ensures AllowedOf(es + [e], p) == AllowedOf(es, p) + if AllowedFor(es + [e], p) then [e.now] else []
  {
    assert (es + [e])[..|es + [e]| - 1] == es;
  }

  // A run at times that the clock can show: it does not run backwards, and an hour before is not before the zero time.
  predicate Timed(es: seq<Event>) {
    Clocked(es) && forall i :: 0 <= i < |es| ==> es[i].now >= HOUR
  }

  lemma StrangerAllowed(k: string)
    ensures var t := TrackConvo(EMPTY, HOUR, k);
      TrackWarn(t, HOUR + 1, k).allowed && TrackWarn(t, HOUR + 1, k).tracker.warns[k].log == [HOUR + 1]
  {
    CountAll([HOUR], 1);
    assert TrackConvo(EMPTY, HOUR, k).convos[k] == Entry([HOUR], 2 * HOUR);
    assert [] + [HOUR + 1] == [HOUR + 1];
  }

  // A message of one pair lets the other pair of the key warn someone who never wrote.
  lemma StrangerWarned(p: Pair, q: Pair)
    requires p != q && p.Key() == q.Key()
    ensures var es := [Convo(HOUR, q)] + [Warn(HOUR + 1, p)];
      Timed(es) && AllowedFor(es, p) && MessagesOf(es, p) == [] && !PairLimited(es, p)
  {
    var e0, e1 := Convo(HOUR, q), Warn(HOUR + 1, p);
    Appended([], e0, p);
    assert [] + [e0] == [e0];
    Appended([e0], e1, p);
    StrangerAllowed(p.Key());
    CountAll([HOUR + 1], 1);
  }

  // After 12345 wrote to 678901, the user 78901 may warn 123456, who never wrote.
  lemma NumbersClash()
    ensures var p, q := Pair("123456", "78901"), Pair("12345", "678901");
      p.Key() == q.Key() && TrackWarn(TrackConvo(EMPTY, HOUR, q.Key()), HOUR + 1, p.Key()).allowed
  {
    var p, q := Pair("123456", "78901"), Pair("12345", "678901");
    assert p.Key() == q.Key();
    StrangerAllowed(p.Key());
  }

  // The limits hold for a pair over every run of a set of pairs if and only if no other pair of the set shares its key.
  lemma PairLimitsExactly(pairs: set<Pair>, p: Pair)
    requires p in pairs
    ensures (forall es | Timed(es) && Over(es, pairs) && AllowedFor(es, p) :: PairLimited(es, p))
       <==> Distinctive(pairs, p)
  {
    if Distinctive(pairs, p) {
      forall es | Timed(es) && Over(es, pairs) && AllowedFor(es, p) ensures PairLimited(es, p) {
        PairLimits(pairs, es, p);
      }
    } else {
      var q :| q in pairs && q.Key() == p.Key() && q != p;
      StrangerWarned(p, q);
      assert Over([Convo(HOUR, q)] + [Warn(HOUR + 1, p)], pairs);
    }
  }

  // ---- The documented limits, across lifetimes of entries ----

  // At most three warnings an hour, and at most one for each message.
  predicate Documented(ms: seq<int>, ws: seq<int>, now: int) {
    Count(ws, now - HOUR) <= Min(3, Count(ms, now - HOUR))
  }

  // The run ends in an allowed warning that breaks the documented limits.
  predicate Breaks(es: seq<Event>, p: Pair) {
    AllowedFor(es, p) && !Documented(MessagesOf(es, p), AllowedOf(es, p), es[|es| - 1].now)
  }

  // More events of the same pairs, from now on and until the given time.
  predicate Continues(pairs: set<Pair>, es: seq<Event>, more: seq<Event>, now: int, until: int) {
    Over(more, pairs) && Timed(es + more) && forall i :: 0 <= i < |more| ==> now <= more[i].now <= until
  }

  // The entry of warnings that a call at the time would use, and the warnings from before that entry.
  function Current(es: seq<Event>, p: Pair, now: int): Entry {
    GetOrNew(Run(es).warns, p.Key(), now)
  }

  function Former(es: seq<Event>, p: Pair, now: int): seq<int> {
    var all, n := AllowedOf(es, p), |Current(es, p, now).log|;
    if n <= |all| then all[..|all| - n] else []
  }

  predicate Until(es: seq<Event>, now: int) {
    es != [] ==> es[|es| - 1].now <= now
  }

  // ---- While an entry lives ----

  predicate Alive(t: Tracker, key: string, w: Entry, all: seq<int>, n: int) {
    && key in t.warns && w.expires <= t.warns[key].expires && w.log <= t.warns[key].log
    && |all| == n + |t.warns[key].log|
  }

  predicate Dormant(t: Tracker, key: string, w: Entry, all: seq<int>, n: int, now: int) {
    w == Entry([], now + HOUR) && Get(t.warns, key, now).None? && |all| == n
  }

  lemma AliveStep(t: Tracker, e: Event, key: string, w: Entry, all: seq<int>, n: int, now: int)
    requires Alive(t, key, w, all, n) || Dormant(t, key, w, all, n, now)
    requires now <= e.now <= w.expires
    ensures var all' := if e.Warn? && e.Key() == key && TrackWarn(t, e.now, key).allowed then all + [e.now] else all;
      Alive(After(t, e), key, w, all', n) || Dormant(After(t, e), key, w, all', n, now)
  {
  }

  lemma {:induction false} LifetimeHolds(es: seq<Event>, more: seq<Event>, p: Pair, now: int, n: int)
    requires var w := Current(es, p, now);
      n == |Allowed(es, p.Key())| - |w.log| && forall i :: 0 <= i < |more| ==> now <= more[i].now <= w.expires
    ensures var w, t, all := Current(es, p, now), Run(es + more), Allowed(es + more, p.Key());
      && Allowed(es, p.Key()) <= all
      && (Alive(t, p.Key(), w, all, n) || Dormant(t, p.Key(), w, all, n, now))
  {
    if more == [] {
      assert es + more == es;
    } else {
      var k := |more| - 1;
      assert (es + more)[..|es + more| - 1] == es + more[..k];
      LifetimeHolds(es, more[..k], p, now, n);
      AliveStep(Run(es + more[..k]), more[k], p.Key(), Current(es, p, now), Allowed(es + more[..k], p.Key()), n, now);
    }
  }

  lemma {:induction false} SomeLeft(log: seq<int>, s: int, t: int) returns (x: int)
    requires s <= t && Count(log, s) > Count(log, t)
    ensures x in log && s < x <= t
  {
    var last := log[|log| - 1];
    if s < last <= t { x := last; } else { x := SomeLeft(log[..|log| - 1], s, t); }
  }

  // Once the ring is full, the next warning is allowed only when all warnings from before the entry are an hour old.
  lemma FullRingWaits(w: Entry, log: seq<int>, former: seq<int>, now: int, later: int)
    requires w.log <= log && w.log != log && log[|log| - 1] == later && now <= later
    requires Within(w.log, w.expires - HOUR, now) && forall i :: 0 <= i < |former| ==> former[i] <= w.expires - HOUR
    requires Count(w.log, now - HOUR) >= 3 && Count(log, later - HOUR) <= 3
    ensures Count(former, later - HOUR) == 0
  {
    assert log == w.log + log[|w.log|..];
    CountSplit(w.log, log[|w.log|..], later - HOUR);
    assert Count(log[|w.log|..], later - HOUR) >= 1;
    var x := SomeLeft(w.log, now - HOUR, later - HOUR);
    CountNone(former, later - HOUR);
  }

  // ---- Bursts: three messages, and warnings until the ring counts three ----

  function Times(now: int, n: nat): seq<int> { seq(n, _ => now) }

  function Messaging(p: Pair, now: int, n: nat): seq<Event> { seq(n, _ => Convo(now, p)) }

  function Warning(p: Pair, now: int, n: nat): seq<Event> { seq(n, _ => Warn(now, p)) }

  lemma MessageNext(es: seq<Event>, p: Pair, now: int)
    ensures var es', k := es + [Convo(now, p)], p.Key();
      var c := GetOrNew(Run(es).convos, k, now);
      && k in Run(es').convos && Run(es').convos[k] == c.(log := c.log + [now]) && Run(es').warns == Run(es).warns
      && MessagesOf(es', p) == MessagesOf(es, p) + [now] && AllowedOf(es', p) == AllowedOf(es, p)
  {
    Appended(es, Convo(now, p), p);
  }

  lemma WarningNext(es: seq<Event>, p: Pair, now: int)
    requires var k := p.Key(); var c := Get(Run(es).convos, k, now);
      c.Some? && Count(Last3(c.value.log), now - HOUR) > Count(Last3(Current(es, p, now).log), now - HOUR)
    ensures var es', k := es + [Warn(now, p)], p.Key();
      var w := Current(es, p, now);
      && AllowedFor(es', p) && Run(es').convos == Run(es).convos
      && k in Run(es').warns && Run(es').warns[k] == w.(log := w.log + [now])
      && MessagesOf(es', p) == MessagesOf(es, p) && AllowedOf(es', p) == AllowedOf(es, p) + [now]
  {
    Appended(es, Warn(now, p), p);
  }

  // The messages of a burst fill the ring of messages.
  lemma {:induction false} MessageBurst(es: seq<Event>, p: Pair, now: int, n: nat)
    ensures var es', k := es + Messaging(p, now, n), p.Key();
      var c := GetOrNew(Run(es).convos, k, now);
      && Run(es').warns == Run(es).warns && AllowedOf(es', p) == AllowedOf(es, p)
      && GetOrNew(Run(es').convos, k, now) == c.(log := c.log + Times(now, n))
      && (n > 0 ==> Get(Run(es').convos, k, now).Some?)
      && MessagesOf(es', p) == MessagesOf(es, p) + Times(now, n)
  {
    var log := GetOrNew(Run(es).convos, p.Key(), now).log;
    if n == 0 {
      assert es + Messaging(p, now, 0) == es && log + Times(now, 0) == log;
      assert MessagesOf(es, p) + Times(now, 0) == MessagesOf(es, p);
    } else {
      MessageBurst(es, p, now, n - 1);
      var es1 := es + Messaging(p, now, n - 1);
      assert es + Messaging(p, now, n) == es1 + [Convo(now, p)];
      OneMoreTime(log, now, n);
      OneMoreTime(MessagesOf(es, p), now, n);
      MessageNext(es1, p, now);
    }
  }

  // There is room for n more warnings in the ring at the time, and three messages in the other.
  predicate Room(es: seq<Event>, p: Pair, now: int, n: nat) {
    var c, w := Get(Run(es).convos, p.Key(), now), Current(es, p, now);
    && c.Some? && Count(Last3(c.value.log), now - HOUR) == 3
    && Sorted(w.log) && (forall i :: 0 <= i < |w.log| ==> w.log[i] <= now) && now <= w.expires
    && Count(w.log, now - HOUR) + n <= 3
  }

  predicate Warned(es: seq<Event>, es': seq<Event>, p: Pair, now: int, n: nat) {
    var w := Current(es, p, now);
    && Run(es').convos == Run(es).convos && MessagesOf(es', p) == MessagesOf(es, p)
    && Current(es', p, now) == w.(log := w.log + Times(now, n))
    && AllowedOf(es', p) == AllowedOf(es, p) + Times(now, n)
    && (n > 0 ==> AllowedFor(es', p))
  }

  // The warnings of a burst are all allowed while the ring of messages counts three and that of warnings does not.
  lemma {:induction false} WarningBurst(es: seq<Event>, p: Pair, now: int, n: nat)
    requires Room(es, p, now, n)
    ensures Warned(es, es + Warning(p, now, n), p, now, n)
  {
    if n == 0 {
      assert es + Warning(p, now, 0) == es && Current(es, p, now).log + Times(now, 0) == Current(es, p, now).log;
      assert AllowedOf(es, p) + Times(now, 0) == AllowedOf(es, p);
    } else {
      WarningBurst(es, p, now, n - 1);
      assert es + Warning(p, now, n) == es + Warning(p, now, n - 1) + [Warn(now, p)];
      OneMoreWarning(es, es + Warning(p, now, n - 1), p, now, n);
    }
  }

  lemma OneMoreWarning(es: seq<Event>, es1: seq<Event>, p: Pair, now: int, n: nat)
    requires n > 0 && Room(es, p, now, n) && Warned(es, es1, p, now, n - 1)
    ensures Warned(es, es1 + [Warn(now, p)], p, now, n)
  {
    var w := Current(es, p, now);
    RoomLeft(es, es1, p, now, n);
    WarningNext(es1, p, now);
    OneMoreTime(w.log, now, n);
    OneMoreTime(AllowedOf(es, p), now, n);
  }

  lemma RoomLeft(es: seq<Event>, es1: seq<Event>, p: Pair, now: int, n: nat)
    requires n > 0 && Room(es, p, now, n) && Warned(es, es1, p, now, n - 1)
    ensures Get(Run(es1).convos, p.Key(), now).Some?
    ensures Count(Last3(Get(Run(es1).convos, p.Key(), now).value.log), now - HOUR)
          > Count(Last3(Current(es1, p, now).log), now - HOUR)
  {
    RingHasRoom(Current(es, p, now).log, Current(es1, p, now).log, now, n);
  }

  lemma RingHasRoom(log: seq<int>, more: seq<int>, now: int, n: nat)
    requires Sorted(log) && (forall i :: 0 <= i < |log| ==> log[i] <= now) && n > 0 && more == log + Times(now, n - 1)
    requires Count(log, now - HOUR) + n <= 3
    ensures Count(Last3(more), now - HOUR) < 3
  {
    BurstSorted(log, now, n - 1);
    RingOfBurst(log, more, now, n - 1);
  }

  lemma OneMoreTime(log: seq<int>, now: int, n: nat)
    requires n > 0
    ensures log + Times(now, n) == log + Times(now, n - 1) + [now]
  {
  }

  lemma BurstSorted(log: seq<int>, now: int, n: nat)
    requires Sorted(log) && forall i :: 0 <= i < |log| ==> log[i] <= now
    ensures Sorted(log + Times(now, n))
  {
  }

  lemma RingOfBurst(log: seq<int>, all: seq<int>, now: int, n: nat)
    requires Sorted(all) && all == log + Times(now, n)
    ensures Count(Last3(all), now - HOUR) == Min(3, Count(log, now - HOUR) + n)
  {
    var start := now - HOUR;
    assert Count(all, start) == Count(log, start) + n by { BurstCount(log, all, now, n); }
    assert Count(Last3(all), start) == Min(3, Count(all, start)) by { RingCounts(all, start); }
  }

  lemma BurstCount(log: seq<int>, all: seq<int>, now: int, n: nat)
    requires all == log + Times(now, n)
    ensures Count(all, now - HOUR) == Count(log, now - HOUR) + n
  {
    CountAll(Times(now, n), now - HOUR);
    CountSplit(log, Times(now, n), now - HOUR);
  }

  function Burst(p: Pair, now: int, n: nat): seq<Event> { Messaging(p, now, 3) + Warning(p, now, n) }

  // The entry in use has room for n more warnings in the hour.
  predicate Spare(w: Entry, now: int, n: nat) {
    && Sorted(w.log) && now <= w.expires && (forall i :: 0 <= i < |w.log| ==> w.log[i] <= now)
    && Count(w.log, now - HOUR) + n <= 3
  }

  // What a burst does to the entry and to the logs.
  predicate Bursted(es: seq<Event>, es': seq<Event>, p: Pair, now: int, n: nat) {
    var w := Current(es, p, now);
    && AllowedFor(es', p)
    && Current(es', p, now) == w.(log := w.log + Times(now, n))
    && AllowedOf(es', p) == AllowedOf(es, p) + Times(now, n)
    && MessagesOf(es', p) == MessagesOf(es, p) + Times(now, 3)
  }

  lemma BurstWarned(es: seq<Event>, es1: seq<Event>, es': seq<Event>, p: Pair, now: int, n: nat)
    requires n > 0 && Current(es1, p, now) == Current(es, p, now) && Warned(es1, es', p, now, n)
    requires AllowedOf(es1, p) == AllowedOf(es, p) && MessagesOf(es1, p) == MessagesOf(es, p) + Times(now, 3)
    ensures Bursted(es, es', p, now, n)
  {
  }

  lemma BurstDone(es: seq<Event>, p: Pair, now: int, n: nat)
    requires n > 0 && Spare(Current(es, p, now), now, n)
    ensures Bursted(es, es + Messaging(p, now, 3) + Warning(p, now, n), p, now, n)
  {
    var es1 := es + Messaging(p, now, 3);
    MessagesMakeRoom(es, p, now, n);
    WarningBurst(es1, p, now, n);
    BurstWarned(es, es1, es1 + Warning(p, now, n), p, now, n);
  }

  lemma BurstSplit(es: seq<Event>, p: Pair, now: int, n: nat)
    ensures es + Burst(p, now, n) == es + Messaging(p, now, 3) + Warning(p, now, n)
  {
  }

  lemma BurstWorks(es: seq<Event>, p: Pair, now: int, n: nat)
    requires Clocked(es) && Until(es, now) && n > 0 && Spare(Current(es, p, now), now, n)
    ensures var es' := es + Burst(p, now, n);
      Bursted(es, es', p, now, n) && Clocked(es') && es'[|es'| - 1].now == now
  {
    BurstDone(es, p, now, n);
    BurstSplit(es, p, now, n);
    BurstClocked(es, p, now, n);
  }

  lemma MessagesMakeRoom(es: seq<Event>, p: Pair, now: int, n: nat)
    requires Spare(Current(es, p, now), now, n)
    ensures var es1 := es + Messaging(p, now, 3);
      && Room(es1, p, now, n) && Current(es1, p, now) == Current(es, p, now)
      && AllowedOf(es1, p) == AllowedOf(es, p) && MessagesOf(es1, p) == MessagesOf(es, p) + Times(now, 3)
  {
    MessageBurst(es, p, now, 3);
    ThreeFill(GetOrNew(Run(es).convos, p.Key(), now).log, now);
  }

  lemma ThreeFill(log: seq<int>, now: int)
    ensures Count(Last3(log + Times(now, 3)), now - HOUR) == 3
  {
    assert Last3(log + Times(now, 3)) == Times(now, 3);
    CountAll(Times(now, 3), now - HOUR);
  }

  lemma BurstClocked(es: seq<Event>, p: Pair, now: int, n: nat)
    requires Clocked(es) && Until(es, now)
    ensures Clocked(es + Burst(p, now, n)) && forall i :: 0 <= i < |Burst(p, now, n)| ==> Burst(p, now, n)[i].now == now
    ensures Over(Burst(p, now, n), {p}) && (es + Burst(p, now, n))[|es + Burst(p, now, n)| - 1].now == now
  {
    if es != [] { assert forall i :: 0 <= i < |es| ==> es[i].now <= es[|es| - 1].now; }
  }

  // The entry in use is sorted and not of the future, and the former warnings are from before it.
  lemma CurrentEntry(es: seq<Event>, p: Pair, now: int)
    requires Clocked(es) && Until(es, now)
    ensures var w, all := Current(es, p, now), Allowed(es, p.Key());
      && Sorted(w.log) && Within(w.log, w.expires - HOUR, now) && now <= w.expires && |w.log| <= |all|
      && all == all[..|all| - |w.log|] + w.log
      && forall i :: 0 <= i < |all| - |w.log| ==> all[i] <= w.expires - HOUR
  {
    var all := Allowed(es, p.Key());
    var was := LastTime(es, p, now);
    var before := WarnFound(Run(es), all, p.Key(), was, now);
    TailIsCut(Current(es, p, now), all, before, now);
  }

  lemma LastTime(es: seq<Event>, p: Pair, now: int) returns (was: int)
    requires Clocked(es) && Until(es, now)
    ensures was <= now && WarnInv(Run(es), Allowed(es, p.Key()), p.Key(), was)
  {
    was := now;
    if es != [] {
      was := es[|es| - 1].now;
      RunInv(es, p.Key());
    }
  }

  lemma TailIsCut(e: Entry, all: seq<int>, before: seq<int>, now: int)
    requires TailOf(e, all, before, now)
    ensures |e.log| <= |all| && all == all[..|all| - |e.log|] + e.log
    ensures forall i :: 0 <= i < |all| - |e.log| ==> all[i] <= e.expires - HOUR
  {
    assert all[..|all| - |e.log|] == before;
  }

  // ---- Exactly when a lifetime can break the limits ----

  lemma BurstBreaks(pairs: set<Pair>, es: seq<Event>, p: Pair, now: int) returns (more: seq<Event>)
    requires p in pairs && Distinctive(pairs, p) && Over(es, pairs) && Timed(es) && Until(es, now) && now >= HOUR
    requires Count(Former(es, p, now), now - HOUR) > 0 && Count(Current(es, p, now).log, now - HOUR) < 3
    ensures CanBreak(pairs, es, p, now, more)
  {
    var w := Current(es, p, now);
    CurrentEntry(es, p, now);
    DistinctiveLogs(pairs, es, p);
    var n := 3 - Count(w.log, now - HOUR);
    more := Burst(p, now, n);
    BurstWorks(es, p, now, n);
    BurstClocked(es, p, now, n);
    TooMany(Former(es, p, now), w.log, now, n);
  }

  lemma TooMany(former: seq<int>, log: seq<int>, now: int, n: nat)
    requires Count(former, now - HOUR) > 0 && Count(log, now - HOUR) + n == 3
    ensures Count(former + log + Times(now, n), now - HOUR) > 3
  {
    CountSplit(former + log, Times(now, n), now - HOUR);
    CountSplit(former, log, now - HOUR);
    CountAll(Times(now, n), now - HOUR);
  }

  // At the end of a continuation in an allowed warning: the entry goes on from the one in use, and all other warnings
  // are the former ones.
  predicate GoesOn(w: Entry, was: seq<int>, log: seq<int>, all: seq<int>, later: int) {
    && |w.log| <= |was| && w.log <= log && |w.log| < |log| && log[|log| - 1] == later
    && |log| <= |all| && log == all[|all| - |log|..] && was[..|was| - |w.log|] == all[..|all| - |log|]
  }

  lemma Continued(es: seq<Event>, p: Pair, now: int, more: seq<Event>)
    requires Clocked(es + more) && more != [] && AllowedFor(es + more, p)
    requires |Current(es, p, now).log| <= |Allowed(es, p.Key())|
    requires forall i :: 0 <= i < |more| ==> now <= more[i].now <= Current(es, p, now).expires
    ensures var full, k := es + more, p.Key();
      && k in Run(full).warns
      && GoesOn(Current(es, p, now), Allowed(es, k), Run(full).warns[k].log, Allowed(full, k), full[|full| - 1].now)
  {
    NewWarning(es, p, now, more);
    LivesOn(es, more, p, now);
    GoneOn(es + more, p, Current(es, p, now), Allowed(es, p.Key()), now);
  }

  lemma GoneOn(full: seq<Event>, p: Pair, w: Entry, was: seq<int>, now: int)
    requires Clocked(full) && full != [] && AllowedFor(full, p) && now <= full[|full| - 1].now
    requires p.Key() in Run(full).warns && |w.log| <= |was| < |Allowed(full, p.Key())|
    requires Lives(w, Run(full).warns[p.Key()], was, Allowed(full, p.Key()), now)
    ensures GoesOn(w, was, Run(full).warns[p.Key()].log, Allowed(full, p.Key()), full[|full| - 1].now)
  {
    WarnedEntry(full, p);
    LastWarned(full, full[..|full| - 1], p);
    GoesOnTail(w, Run(full).warns[p.Key()], was, Allowed(full, p.Key()), now, full[|full| - 1].now);
  }

  lemma CurrentShort(es: seq<Event>, p: Pair, now: int)
    requires Clocked(es) && Until(es, now)
    ensures |Current(es, p, now).log| <= |Allowed(es, p.Key())|
  {
    CurrentEntry(es, p, now);
  }

  // The entry of a later time: the one in use, grown by what was allowed since, or a new one.
  predicate Lives(w: Entry, e: Entry, was: seq<int>, all: seq<int>, now: int) {
    was <= all
    && ((w.expires <= e.expires && w.log <= e.log && |all| - |was| == |e.log| - |w.log|)
        || (w.log == [] && now > e.expires))
  }

  // The log of an entry ends the warnings of its key.
  predicate Ends(e: Entry, all: seq<int>) {
    |e.log| <= |all| && e.log == all[|all| - |e.log|..] && forall i :: 0 <= i < |e.log| ==> e.log[i] <= e.expires
  }

  lemma LivesOn(es: seq<Event>, more: seq<Event>, p: Pair, now: int)
    requires forall i :: 0 <= i < |more| ==> now <= more[i].now <= Current(es, p, now).expires
    requires p.Key() in Run(es + more).warns
    ensures var k := p.Key();
      Lives(Current(es, p, now), Run(es + more).warns[k], Allowed(es, k), Allowed(es + more, k), now)
  {
    LifetimeHolds(es, more, p, now, |Allowed(es, p.Key())| - |Current(es, p, now).log|);
  }

  lemma GoesOnTail(w: Entry, e: Entry, was: seq<int>, all: seq<int>, now: int, later: int)
    requires Lives(w, e, was, all, now) && Ends(e, all) && |w.log| <= |was| < |all| && now <= later
    requires e.log != [] && e.log[|e.log| - 1] == later
    ensures GoesOn(w, was, e.log, all, later)
  {
    assert e.log[|e.log| - 1] <= e.expires;
    assert all[..|was| - |w.log|] == was[..|was| - |w.log|];
  }

  // A continuation that ends in an allowed warning has more warnings than there were.
  lemma NewWarning(es: seq<Event>, p: Pair, now: int, more: seq<Event>)
    requires more != [] && AllowedFor(es + more, p)
    requires |Current(es, p, now).log| <= |Allowed(es, p.Key())|
    requires forall i :: 0 <= i < |more| ==> now <= more[i].now <= Current(es, p, now).expires
    ensures var full := es + more;
      p.Key() in Run(full).warns && |Allowed(es, p.Key())| < |Allowed(full, p.Key())| && now <= full[|full| - 1].now
  {
    var j := |more| - 1;
    assert (es + more)[..|es + more| - 1] == es + more[..j];
    LifetimeHolds(es, more[..j], p, now, |Allowed(es, p.Key())| - |Current(es, p, now).log|);
    LastWarned(es + more, es + more[..j], p);
  }

  lemma LastWarned(full: seq<Event>, prefix: seq<Event>, p: Pair)
    requires AllowedFor(full, p) && prefix == full[..|full| - 1]
    ensures p.Key() in Run(full).warns
    ensures var log := Run(full).warns[p.Key()].log; log != [] && log[|log| - 1] == full[|full| - 1].now
    ensures |Allowed(full, p.Key())| == |Allowed(prefix, p.Key())| + 1
  {
    LastAllowed(full, p.Key());
  }

  // After an allowed warning the entry is live and its log a tail of the warnings.
  lemma WarnedEntry(full: seq<Event>, p: Pair)
    requires Clocked(full) && full != [] && AllowedLast(full, p.Key()) && p.Key() in Run(full).warns
    ensures Ends(Run(full).warns[p.Key()], Allowed(full, p.Key()))
  {
    var later := full[|full| - 1].now;
    RunInv(full, p.Key());
    CutFromInv(Run(full), Allowed(full, p.Key()), p.Key(), later);
  }

  lemma CutFromInv(t: Tracker, all: seq<int>, key: string, now: int)
    requires WarnInv(t, all, key, now) && key in t.warns
    ensures Ends(t.warns[key], all)
  {
    var e := t.warns[key];
    var before :| WarnTail(e, all, before, now);
    TailEnds(e, all, before, now);
  }

  lemma TailEnds(e: Entry, all: seq<int>, before: seq<int>, now: int)
    requires TailOf(e, all, before, now)
    ensures Ends(e, all)
  {
    assert (before + e.log)[|before|..] == e.log;
  }

  lemma ContinuationKeeps(pairs: set<Pair>, es: seq<Event>, p: Pair, now: int, more: seq<Event>)
    requires p in pairs && Distinctive(pairs, p) && Over(es, pairs) && Clocked(es) && Until(es, now)
    requires Continues(pairs, es, more, now, Current(es, p, now).expires) && more != [] && AllowedFor(es + more, p)
    requires Count(Former(es, p, now), now - HOUR) == 0 || Count(Current(es, p, now).log, now - HOUR) >= 3
    ensures !Breaks(es + more, p)
  {
    var full := es + more;
    DistinctiveLogs(pairs, es, p);
    DistinctiveLogs(pairs, full, p);
    WarningsPerHour(full, p.Key());
    CurrentShort(es, p, now);
    Continued(es, p, now, more);
    GoneOnKeeps(es, p, now, Run(full).warns[p.Key()].log, MessagesOf(full, p), AllowedOf(full, p),
        full[|full| - 1].now);
  }

  lemma FormerBounds(es: seq<Event>, p: Pair, now: int)
    requires Clocked(es) && Until(es, now) && AllowedOf(es, p) == Allowed(es, p.Key())
    ensures var w, was := Current(es, p, now), Allowed(es, p.Key());
      && |w.log| <= |was| && Former(es, p, now) == was[..|was| - |w.log|] && Within(w.log, w.expires - HOUR, now)
      && forall i :: 0 <= i < |was| - |w.log| ==> was[i] <= w.expires - HOUR
  {
    CurrentEntry(es, p, now);
  }

  lemma FormerThenLog(w: Entry, was: seq<int>, log: seq<int>, all: seq<int>, later: int)
    requires GoesOn(w, was, log, all, later)
    ensures all == was[..|was| - |w.log|] + log
  {
    assert all == all[..|all| - |log|] + all[|all| - |log|..];
  }

  lemma GoneOnKeeps(es: seq<Event>, p: Pair, now: int, log: seq<int>, ms: seq<int>, all: seq<int>, later: int)
    requires Clocked(es) && Until(es, now) && now <= later && AllowedOf(es, p) == Allowed(es, p.Key())
    requires GoesOn(Current(es, p, now), Allowed(es, p.Key()), log, all, later) && Limits(log, ms, all, later)
    requires Count(Former(es, p, now), now - HOUR) == 0 || Count(Current(es, p, now).log, now - HOUR) >= 3
    ensures Documented(ms, all, later)
  {
    FormerBounds(es, p, now);
    DocumentedAfter(Former(es, p, now), Current(es, p, now), Allowed(es, p.Key()), log, ms, all, now, later);
  }

  lemma DocumentedAfter(former: seq<int>, w: Entry, was: seq<int>, log: seq<int>, ms: seq<int>, all: seq<int>, now: int,
                        later: int)
    requires |w.log| <= |was| && former == was[..|was| - |w.log|]
    requires GoesOn(w, was, log, all, later) && now <= later && Within(w.log, w.expires - HOUR, now)
    requires forall i :: 0 <= i < |was| - |w.log| ==> was[i] <= w.expires - HOUR
    requires Count(former, now - HOUR) == 0 || Count(w.log, now - HOUR) >= 3
    requires Limits(log, ms, all, later)
    ensures Documented(ms, all, later)
  {
    FormerThenLog(w, was, log, all, later);
    FormerGone(former, w, log, now, later);
    CountSplit(former, log, later - HOUR);
  }

  lemma FormerGone(former: seq<int>, w: Entry, log: seq<int>, now: int, later: int)
    requires w.log <= log && |w.log| < |log| && log[|log| - 1] == later && now <= later
    requires Within(w.log, w.expires - HOUR, now) && forall i :: 0 <= i < |former| ==> former[i] <= w.expires - HOUR
    requires Count(former, now - HOUR) == 0 || Count(w.log, now - HOUR) >= 3
    requires Count(log, later - HOUR) <= 3
    ensures Count(former, later - HOUR) == 0
  {
    if Count(w.log, now - HOUR) >= 3 {
      FullRingWaits(w, log, former, now, later);
    } else {
      CountMonotone(former, now - HOUR, later - HOUR);
    }
  }

  // For a pair that shares its key with no other, at any time of any run: within the lifetime of the entry that a
  // warning now would use, some continuation breaks the documented limits if and only if a warning from before that
  // entry is less than an hour old and the entry itself counts fewer than three in the hour.
  lemma LifetimeBreaksExactly(pairs: set<Pair>, es: seq<Event>, p: Pair, now: int)
    requires p in pairs && Distinctive(pairs, p) && Over(es, pairs) && Timed(es) && Until(es, now) && now >= HOUR
    ensures (exists more :: CanBreak(pairs, es, p, now, more))
       <==> Count(Former(es, p, now), now - HOUR) > 0 && Count(Current(es, p, now).log, now - HOUR) < 3
  {
    if Count(Former(es, p, now), now - HOUR) > 0 && Count(Current(es, p, now).log, now - HOUR) < 3 {
      var more := BurstBreaks(pairs, es, p, now);
      assert CanBreak(pairs, es, p, now, more);
    } else {
      forall more ensures !CanBreak(pairs, es, p, now, more) {
        if CanBreak(pairs, es, p, now, more) { ContinuationKeeps(pairs, es, p, now, more); }
      }
    }
  }

  predicate CanBreak(pairs: set<Pair>, es: seq<Event>, p: Pair, now: int, more: seq<Event>) {
    more != [] && Continues(pairs, es, more, now, Current(es, p, now).expires) && Breaks(es + more, p)
  }

  // The bound of six is met: three warnings at the last moment of one entry and three at the first of the next.
  lemma SixInAnHour(p: Pair) returns (es: seq<Event>)
    ensures Timed(es) && Over(es, {p}) && AllowedFor(es, p)
    ensures Count(AllowedOf(es, p), es[|es| - 1].now - HOUR) == 6
  {
    var e1 := Burst(p, HOUR, 3);
    var e2 := e1 + Burst(p, 2 * HOUR, 3);
    es := e2 + Burst(p, 2 * HOUR + 1, 3);
    SixFirst(p);
    SixSecond(p, e1);
    BurstClocked([], p, HOUR, 3);
    BurstClocked(e1, p, 2 * HOUR, 3);
    SixThird(p, e2);
  }

  lemma SixThird(p: Pair, e2: seq<Event>)
    requires Timed(e2) && e2 != [] && e2[|e2| - 1].now == 2 * HOUR && Over(e2, {p})
    requires Current(e2, p, 2 * HOUR + 1) == Entry([], 3 * HOUR + 1) && AllowedOf(e2, p)
             == Times(HOUR, 3) + Times(2 * HOUR, 3)
    ensures var es := e2 + Burst(p, 2 * HOUR + 1, 3);
      && Timed(es) && Over(es, {p}) && AllowedFor(es, p)
      && Count(AllowedOf(es, p), es[|es| - 1].now - HOUR) == 6
  {
    BurstWorks(e2, p, 2 * HOUR + 1, 3);
    BurstClocked(e2, p, 2 * HOUR + 1, 3);
    SixCounted();
  }

  lemma SixFirst(p: Pair)
    ensures var es := Burst(p, HOUR, 3);
      && Clocked(es) && es != [] && es[|es| - 1].now == HOUR
      && Current(es, p, HOUR) == Entry(Times(HOUR, 3), 2 * HOUR) && AllowedOf(es, p) == Times(HOUR, 3)
  {
    assert [] + Burst(p, HOUR, 3) == Burst(p, HOUR, 3) && [] + Times(HOUR, 3) == Times(HOUR, 3);
    assert Current([], p, HOUR) == Entry([], 2 * HOUR) && Count([], 0) == 0;
    assert AllowedOf([], p) == [] && Clocked([]) && Until([], HOUR);
    BurstWorks([], p, HOUR, 3);
  }

  lemma SixSecond(p: Pair, e1: seq<Event>)
    requires Clocked(e1) && e1 != [] && e1[|e1| - 1].now == HOUR
    requires Current(e1, p, HOUR) == Entry(Times(HOUR, 3), 2 * HOUR) && AllowedOf(e1, p) == Times(HOUR, 3)
    ensures var es := e1 + Burst(p, 2 * HOUR, 3);
      && Clocked(es) && es[|es| - 1].now == 2 * HOUR
      && Current(es, p, 2 * HOUR + 1) == Entry([], 3 * HOUR + 1) && AllowedOf(es, p)
          == Times(HOUR, 3) + Times(2 * HOUR, 3)
  {
    assert Current(e1, p, 2 * HOUR) == Entry(Times(HOUR, 3), 2 * HOUR);
    CountNone(Times(HOUR, 3), HOUR);
    BurstWorks(e1, p, 2 * HOUR, 3);
  }

  lemma SixCounted()
    ensures Count(Times(HOUR, 3) + Times(2 * HOUR, 3) + Times(2 * HOUR + 1, 3), HOUR + 1) == 6
  {
    CountSplit(Times(HOUR, 3) + Times(2 * HOUR, 3), Times(2 * HOUR + 1, 3), HOUR + 1);
    CountSplit(Times(HOUR, 3), Times(2 * HOUR, 3), HOUR + 1);
    CountNone(Times(HOUR, 3), HOUR + 1);
    CountAll(Times(2 * HOUR, 3), HOUR + 1);
    CountAll(Times(2 * HOUR + 1, 3), HOUR + 1);
  }

  // What p's record and logs are after a run.
  predicate Holds(es: seq<Event>, p: Pair, convo: Entry, warn: Option<Entry>, ms: seq<int>, ws: seq<int>) {
    var t, k := Run(es), p.Key();
    && k in t.convos && t.convos[k] == convo
    && (if warn.Some? then k in t.warns && t.warns[k] == warn.value else k !in t.warns)
    && MessagesOf(es, p) == ms && AllowedOf(es, p) == ws
  }

  lemma ConvoNext(es: seq<Event>, p: Pair, c: Entry, w: Option<Entry>, ms: seq<int>, ws: seq<int>, now: int)
    requires Holds(es, p, c, w, ms, ws)
    ensures Holds(es + [Convo(now, p)], p,
                  if now <= c.expires then c.(log := c.log + [now]) else Entry([now], now + HOUR), w, ms + [now], ws)
  {
    MessageNext(es, p, now);
  }

  // A warning is allowed when the messages outnumber the warnings that count.
  lemma WarnNext(es: seq<Event>, p: Pair, c: Entry, w: Option<Entry>, ms: seq<int>, ws: seq<int>, now: int)
    requires Holds(es, p, c, w, ms, ws) && now <= c.expires
    requires var e := if w.Some? && now <= w.value.expires then w.value else Entry([], now + HOUR);
             Count(Last3(c.log), now - HOUR) > Count(Last3(e.log), now - HOUR)
    ensures var e := if w.Some? && now <= w.value.expires then w.value else Entry([], now + HOUR);
            Holds(es + [Warn(now, p)], p, c, Some(e.(log := e.log + [now])), ms, ws + [now])
    ensures AllowedFor(es + [Warn(now, p)], p)
  {
    WarningNext(es, p, now);
  }

  // Across two lifetimes the limits do not hold: three warnings within an hour in which two messages came.
  lemma TwoLifetimesOverrun(p: Pair) returns (es: seq<Event>)
    ensures Timed(es) && Over(es, {p}) && Breaks(es, p)
  {
    var es0 := TwoLifetimes(p);
    es := Overrun(es0, p);
    SampleClocked(es, p);
    OverrunCounts();
  }

  lemma SampleClocked(es: seq<Event>, p: Pair)
    requires es == [Convo(HOUR, p), Warn(HOUR + 5, p), Convo(2 * HOUR + 1, p), Convo(2 * HOUR + 3, p)]
                   + [Warn(2 * HOUR + 3, p)] + [Warn(2 * HOUR + 6, p)] + [Warn(2 * HOUR + 7, p)]
    ensures Timed(es) && Over(es, {p}) && es[|es| - 1].now == 2 * HOUR + 7
  {
  }

  lemma OneMessage(p: Pair)
    ensures Holds([Convo(HOUR, p)], p, Entry([HOUR], 2 * HOUR), None, [HOUR], [])
  {
    assert [] + [Convo(HOUR, p)] == [Convo(HOUR, p)] && [] + [HOUR] == [HOUR];
    MessageNext([], p, HOUR);
    assert MessagesOf([], p) == [] && AllowedOf([], p) == [];
  }

  lemma TwoLifetimes(p: Pair) returns (es: seq<Event>)
    ensures es == [Convo(HOUR, p), Warn(HOUR + 5, p), Convo(2 * HOUR + 1, p), Convo(2 * HOUR + 3, p)]
    ensures Holds(es, p, Entry([2 * HOUR + 1, 2 * HOUR + 3], 3 * HOUR + 1), Some(Entry([HOUR + 5], 2 * HOUR + 5)),
                  [HOUR, 2 * HOUR + 1, 2 * HOUR + 3], [HOUR + 5])
  {
    var c, w := Entry([HOUR], 2 * HOUR), Entry([HOUR + 5], 2 * HOUR + 5);
    FirstWarned(p);
    es := [Convo(HOUR, p)] + [Warn(HOUR + 5, p)];
    ConvoNext(es, p, c, Some(w), [HOUR], [HOUR + 5], 2 * HOUR + 1);
    assert [HOUR] + [2 * HOUR + 1] == [HOUR, 2 * HOUR + 1];
    es := es + [Convo(2 * HOUR + 1, p)];
    ConvoNext(es, p, Entry([2 * HOUR + 1], 3 * HOUR + 1), Some(w), [HOUR, 2 * HOUR + 1], [HOUR + 5], 2 * HOUR + 3);
    assert [HOUR, 2 * HOUR + 1] + [2 * HOUR + 3] == [HOUR, 2 * HOUR + 1, 2 * HOUR + 3];
    assert [2 * HOUR + 1] + [2 * HOUR + 3] == [2 * HOUR + 1, 2 * HOUR + 3];
    es := es + [Convo(2 * HOUR + 3, p)];
  }

  lemma FirstWarned(p: Pair)
    ensures Holds([Convo(HOUR, p)] + [Warn(HOUR + 5, p)], p, Entry([HOUR], 2 * HOUR),
                  Some(Entry([HOUR + 5], 2 * HOUR + 5)), [HOUR], [HOUR + 5])
  {
    OneMessage(p);
    CountAll([HOUR], 5);
    WarnNext([Convo(HOUR, p)], p, Entry([HOUR], 2 * HOUR), None, [HOUR], [], HOUR + 5);
    assert [] + [HOUR + 5] == [HOUR + 5];
  }

  lemma Overrun(es: seq<Event>, p: Pair) returns (es': seq<Event>)
    requires Holds(es, p, Entry([2 * HOUR + 1, 2 * HOUR + 3], 3 * HOUR + 1), Some(Entry([HOUR + 5], 2 * HOUR + 5)),
                   [HOUR, 2 * HOUR + 1, 2 * HOUR + 3], [HOUR + 5])
    ensures es' == es + [Warn(2 * HOUR + 3, p)] + [Warn(2 * HOUR + 6, p)] + [Warn(2 * HOUR + 7, p)]
    ensures AllowedFor(es', p)
    ensures MessagesOf(es', p) == [HOUR, 2 * HOUR + 1, 2 * HOUR + 3] &&
            AllowedOf(es', p) == [HOUR + 5, 2 * HOUR + 3, 2 * HOUR + 6, 2 * HOUR + 7]
  {
    var c, ms := Entry([2 * HOUR + 1, 2 * HOUR + 3], 3 * HOUR + 1), [HOUR, 2 * HOUR + 1, 2 * HOUR + 3];
    OverrunStart(es, p, c, ms);
    es' := OverrunEnd(es + [Warn(2 * HOUR + 3, p)], p, c, ms);
  }

  lemma OverrunStart(es: seq<Event>, p: Pair, c: Entry, ms: seq<int>)
    requires c == Entry([2 * HOUR + 1, 2 * HOUR + 3], 3 * HOUR + 1)
             && Holds(es, p, c, Some(Entry([HOUR + 5], 2 * HOUR + 5)), ms, [HOUR + 5])
    ensures Holds(es + [Warn(2 * HOUR + 3, p)], p, c, Some(Entry([HOUR + 5, 2 * HOUR + 3], 2 * HOUR + 5)), ms,
                  [HOUR + 5, 2 * HOUR + 3])
  {
    CountAll(c.log, HOUR + 3);
    CountAll([HOUR + 5], HOUR + 3);
    assert Last3(c.log) == c.log && Last3([HOUR + 5]) == [HOUR + 5];
    WarnNext(es, p, c, Some(Entry([HOUR + 5], 2 * HOUR + 5)), ms, [HOUR + 5], 2 * HOUR + 3);
    assert [HOUR + 5] + [2 * HOUR + 3] == [HOUR + 5, 2 * HOUR + 3];
  }

  lemma OverrunEnd(es: seq<Event>, p: Pair, c: Entry, ms: seq<int>) returns (es': seq<Event>)
    requires c == Entry([2 * HOUR + 1, 2 * HOUR + 3], 3 * HOUR + 1)
    requires Holds(es, p, c, Some(Entry([HOUR + 5, 2 * HOUR + 3], 2 * HOUR + 5)), ms, [HOUR + 5, 2 * HOUR + 3])
    ensures es' == es + [Warn(2 * HOUR + 6, p)] + [Warn(2 * HOUR + 7, p)]
    ensures AllowedFor(es', p) && MessagesOf(es', p) == ms &&
            AllowedOf(es', p) == [HOUR + 5, 2 * HOUR + 3, 2 * HOUR + 6, 2 * HOUR + 7]
  {
    CountAll(c.log, HOUR + 6);
    WarnNext(es, p, c, Some(Entry([HOUR + 5, 2 * HOUR + 3], 2 * HOUR + 5)), ms, [HOUR + 5, 2 * HOUR + 3], 2 * HOUR + 6);
    assert [] + [2 * HOUR + 6] == [2 * HOUR + 6] && [HOUR + 5, 2 * HOUR + 3] + [2 * HOUR + 6]
        == [HOUR + 5, 2 * HOUR + 3, 2 * HOUR + 6];
    es' := OverrunLast(es + [Warn(2 * HOUR + 6, p)], p, c, ms);
  }

  lemma OverrunLast(es: seq<Event>, p: Pair, c: Entry, ms: seq<int>) returns (es': seq<Event>)
    requires c == Entry([2 * HOUR + 1, 2 * HOUR + 3], 3 * HOUR + 1)
    requires Holds(es, p, c, Some(Entry([2 * HOUR + 6], 3 * HOUR + 6)), ms, [HOUR + 5, 2 * HOUR + 3, 2 * HOUR + 6])
    ensures es' == es + [Warn(2 * HOUR + 7, p)]
    ensures AllowedFor(es', p) && MessagesOf(es', p) == ms &&
            AllowedOf(es', p) == [HOUR + 5, 2 * HOUR + 3, 2 * HOUR + 6, 2 * HOUR + 7]
  {
    CountAll(c.log, HOUR + 7);
    CountAll([2 * HOUR + 6], HOUR + 7);
    WarnNext(es, p, c, Some(Entry([2 * HOUR + 6], 3 * HOUR + 6)), ms, [HOUR + 5, 2 * HOUR + 3, 2 * HOUR + 6],
             2 * HOUR + 7);
    assert [HOUR + 5, 2 * HOUR + 3, 2 * HOUR + 6] + [2 * HOUR + 7]
        == [HOUR + 5, 2 * HOUR + 3, 2 * HOUR + 6, 2 * HOUR + 7];
    es' := es + [Warn(2 * HOUR + 7, p)];
  }

  lemma OverrunCounts()
    ensures !Documented([HOUR, 2 * HOUR + 1, 2 * HOUR + 3], [HOUR + 5, 2 * HOUR + 3, 2 * HOUR + 6, 2 * HOUR + 7],
                        2 * HOUR + 7)
  {
    assert [HOUR + 5, 2 * HOUR + 3, 2 * HOUR + 6, 2 * HOUR + 7]
        == [HOUR + 5] + [2 * HOUR + 3, 2 * HOUR + 6, 2 * HOUR + 7];
    CountSplit([HOUR + 5], [2 * HOUR + 3, 2 * HOUR + 6, 2 * HOUR + 7], HOUR + 7);
    CountNone([HOUR + 5], HOUR + 7);
    CountAll([2 * HOUR + 3, 2 * HOUR + 6, 2 * HOUR + 7], HOUR + 7);
    assert [HOUR, 2 * HOUR + 1, 2 * HOUR + 3] == [HOUR] + [2 * HOUR + 1, 2 * HOUR + 3];
    CountSplit([HOUR], [2 * HOUR + 1, 2 * HOUR + 3], HOUR + 7);
    CountNone([HOUR], HOUR + 7);
    CountAll([2 * HOUR + 1, 2 * HOUR + 3], HOUR + 7);
  }
}
