/**
 A session's rate classes and warning level over whole runs: messages, observations by the rate monitor and warnings
 in any order.
 */
module RateRuns {
  import opened Common
  import opened RateLimit

  // One class of a session: its thresholds as scaled by warnings, the original ones, and the moving average.
  datatype RateState = RateState(cls: RateClass, orig: RateClass, level: int, status: Status, last: int,
                                 limitedNow: bool, subscribed: bool)

  datatype Session = Session(classes: seq<RateState>, warning: int, bot: bool, closed: bool)

  datatype Event = Message(c: nat, now: int) | Observe(now: int) | Warn(c: nat, incr: int)

  // ---- One event on one class ----

  function Evaluated(r: RateState, now: int): RateState
    requires r.cls.window > 0
  {
    var level := NewLevel(r.cls, r.level, now - r.last);
    var status := StatusOf(r.cls, level, r.limitedNow);
    r.(level := level, status := status, last := now, limitedNow := status == Limited)
  }

  // The monitor records the status, and credits the level only when a limit is lifted; the time of the last message
  // stays as it was.
  function Observed(r: RateState, now: int): RateState
    requires r.cls.window > 0
  {
    if !r.subscribed then r
    else
      var level := NewLevel(r.cls, r.level, now - r.last);
      var status := StatusOf(r.cls, level, r.limitedNow);
      if r.limitedNow && status == Clear then r.(status := status, limitedNow := false, level := level)
      else r.(status := status)
  }

  // The room that warnings have to raise a threshold: they stop 150 short of the maximum.
  function Headroom(original: int, max: int): int {
    max - 150 - original
  }

  function Clamped(t: int, lo: int, hi: int): int {
    if t < lo then lo else if t > hi then hi else t
  }

  function Rescale(threshold: int, original: int, max: int, incr: int): int {
    var t := Wrap(threshold + Trunc(Headroom(original, max) * incr, 1000));
    Clamped(t, original, max)
  }

  function Rescaled(r: RateState, incr: int): RateState {
    var o := r.orig;
    r.(cls := r.cls.(limit := Rescale(r.cls.limit, o.limit, o.max, incr),
                     clear := Rescale(r.cls.clear, o.clear, o.max, incr),
                     alert := Rescale(r.cls.alert, o.alert, o.max, incr)))
  }

  predicate Int16(x: int) { -0x8000 <= x < 0x8000 }

  predicate Accepts(s: Session, incr: int) { s.warning + incr <= 1000 }

  // The thresholds lie between their originals and the maximum; nothing else of the class ever changes.
  predicate Scaled(r: RateState) {
    && Sane(r.orig)
    && r.cls == r.orig.(limit := r.cls.limit, clear := r.cls.clear, alert := r.cls.alert)
    && r.orig.limit <= r.cls.limit <= r.orig.max
    && r.orig.clear <= r.cls.clear <= r.orig.max
    && r.orig.alert <= r.cls.alert <= r.orig.max
  }

  predicate Valid(s: Session) {
    forall i :: 0 <= i < |s.classes| ==> Scaled(s.classes[i])
  }

  function StepClass(s: Session, i: nat, e: Event): (r: RateState)
    requires Valid(s) && i < |s.classes|
    ensures Scaled(r)
  {
    var r := s.classes[i];
    match e
    case Message(c, now) => if c == i && !s.bot then Evaluated(r, now) else r
    case Observe(now) => Observed(r, now)
    case Warn(c, incr) => if c == i && Accepts(s, incr) then Rescaled(r, incr) else r
  }

  function Step(s: Session, e: Event): (s': Session)
    requires Valid(s)
    ensures Valid(s') && |s'.classes| == |s.classes| && s'.bot == s.bot
  {
    var classes := seq(|s.classes|, i requires 0 <= i < |s.classes| => StepClass(s, i, e));
    var warning := if e.Warn? && Accepts(s, e.incr) then Max(0, s.warning + e.incr) else s.warning;
    var cut := e.Message? && !s.bot && e.c < |s.classes| && classes[e.c].status == Disconnect;
    Session(classes, warning, s.bot, s.closed || cut)
  }

  function Run(s: Session, es: seq<Event>): (s': Session)
    requires Valid(s)
    ensures Valid(s') && |s'.classes| == |s.classes| && s'.bot == s.bot
  {
    if es == [] then s else Step(Run(s, es[..|es| - 1]), es[|es| - 1])
  }

  // ---- Runs in which no message of class c is held back ----

  function Messages(es: seq<Event>, c: nat): nat {
    if es == [] then 0
    else Messages(es[..|es| - 1], c) + if IsMessage(es[|es| - 1], c) then 1 else 0
  }

  predicate IsMessage(e: Event, c: nat) { e.Message? && e.c == c }

  // Every message of class c gets a status that satisfies ok, after a gap that is at least lo, at most hi and short
  // enough not to wrap.
  predicate Paced(s: Session, es: seq<Event>, c: nat, lo: int, hi: int)
    requires Valid(s) && c < |s.classes|
  {
    es == [] ||
    var n := |es| - 1;
    && Paced(s, es[..n], c, lo, hi)
    && (IsMessage(es[n], c) ==>
          var r := Run(s, es[..n]).classes[c];
          lo <= es[n].now - r.last <= hi && Timely(r.orig, es[n].now - r.last))
  }

  predicate Answered(s: Session, es: seq<Event>, c: nat, ok: set<Status>)
    requires Valid(s) && c < |s.classes|
  {
    es == [] ||
    var n := |es| - 1;
    && Answered(s, es[..n], c, ok)
    && (IsMessage(es[n], c) ==> Run(s, es).classes[c].status in ok)
  }

  const UNHELD := {Clear, Alert}

  predicate Fresh(r: RateState) {
    Scaled(r) && !r.limitedNow && 0 <= r.level <= r.orig.max
  }

  lemma GapNeeded(x: int, x': int, w: int, e: int)
    requires x' * w <= x * (w - 1) + e
    ensures e >= x' + (w - 1) * (x' - x)
  {
    assert (w - 1) * (x' - x) == x' * w - x' - x * (w - 1);
  }

  // One message that is not held back: what the gap must be for the average to reach its new value.
  lemma MessageStep(r: RateState, now: int)
    requires Fresh(r) && Timely(r.orig, now - r.last) && Evaluated(r, now).status in UNHELD
    ensures var r' := Evaluated(r, now);
      && 0 <= r'.level <= r.orig.max
      && now - r.last >= r'.level + (r.orig.window - 1) * (r'.level - r.level)
      && !r'.limitedNow && r'.level >= r.orig.limit
  {
    var e, x := now - r.last, r.level;
    var x' := NewLevel(r.orig, x, e);
    assert Evaluated(r, now).level == x';
    LevelBounds(r.orig, x, e);
    GapNeeded(x, x', r.orig.window, e);
  }

  // While a class is not limited, only a message of its own moves its level and its clock.
  lemma OtherStep(s: Session, i: nat, e: Event)
    requires Valid(s) && i < |s.classes| && Fresh(s.classes[i]) && (s.bot || !IsMessage(e, i))
    ensures var r, r' := s.classes[i], StepClass(s, i, e);
      Fresh(r') && r'.level == r.level && r'.last == r.last && r'.orig == r.orig
  {
  }

  // Sum of gaps, level and count after n messages.
  predicate Progress(r0: RateState, r: RateState, n: nat, hi: int) {
    && Fresh(r) && r.orig == r0.orig
    && r.last - r0.last >= n * r0.orig.limit + (r0.orig.window - 1) * (r.level - r0.level)
    && (if n == 0 then r.level == r0.level else r.level >= r0.orig.limit)
    && (hi < r0.orig.limit && n > 0 ==> r.level <= r0.orig.max - n)
  }

  lemma Telescope(n: nat, limit: int, w: int, x0: int, x: int, x': int, d: int, e: int)
    requires d >= n * limit + w * (x - x0) && e >= x' + w * (x' - x) && x' >= limit
    ensures d + e >= (n + 1) * limit + w * (x' - x0)
  {
    assert w * (x - x0) + w * (x' - x) == w * (x' - x0);
    assert (n + 1) * limit == n * limit + limit;
  }

  lemma ProgressStep(r0: RateState, p: RateState, n: nat, hi: int, now: int)
    requires Fresh(r0) && Progress(r0, p, n, hi)
    requires Timely(p.orig, now - p.last) && now - p.last <= hi && Evaluated(p, now).status in UNHELD
    ensures Progress(r0, Evaluated(p, now), n + 1, hi)
  {
    var r := Evaluated(p, now);
    MessageStep(p, now);
    Telescope(n, r0.orig.limit, r0.orig.window - 1, r0.level, p.level, r.level, p.last - r0.last, now - p.last);
    if hi < r0.orig.limit { FallingStep(p, n, hi, now); }
  }

  // Below the limit, each message takes the level one further from the maximum.
  lemma FallingStep(p: RateState, n: nat, hi: int, now: int)
    requires Fresh(p) && Timely(p.orig, now - p.last) && now - p.last <= hi < p.orig.limit
    requires n > 0 ==> p.orig.limit <= p.level <= p.orig.max - n
    ensures Evaluated(p, now).level <= p.orig.max - (n + 1)
  {
    if n == 0 { BelowMax(p.orig, p.level, now - p.last); } else { LevelFalls(p.orig, p.level, now - p.last); }
  }

  lemma UnheldStep(r0: RateState, q: Session, e: Event, c: nat, n: nat, hi: int)
    requires Valid(q) && !q.bot && c < |q.classes| && Fresh(r0) && Progress(r0, q.classes[c], n, hi)
    requires IsMessage(e, c) ==>
               var p := q.classes[c];
               && Timely(p.orig, e.now - p.last) && e.now - p.last <= hi && StepClass(q, c, e).status in UNHELD
    ensures Progress(r0, StepClass(q, c, e), n + if IsMessage(e, c) then 1 else 0, hi)
  {
    if IsMessage(e, c) { ProgressStep(r0, q.classes[c], n, hi, e.now); } else { OtherStep(q, c, e); }
  }

  lemma {:induction false} UnheldRun(s: Session, es: seq<Event>, c: nat, lo: int, hi: int)
    requires Valid(s) && !s.bot && c < |s.classes| && Fresh(s.classes[c])
    requires Paced(s, es, c, lo, hi) && Answered(s, es, c, UNHELD)
    ensures Progress(s.classes[c], Run(s, es).classes[c], Messages(es, c), hi)
  {
    if es != [] {
      var k := |es| - 1;
      UnheldRun(s, es[..k], c, lo, hi);
      assert Run(s, es).classes[c] == StepClass(Run(s, es[..k]), c, es[k]);
      UnheldStep(s.classes[c], Run(s, es[..k]), es[k], c, Messages(es[..k], c), hi);
    }
  }

  // Throughput: n messages of a class, none of them held back, take at least n*L - (window-1)*(X-L) milliseconds, L
  // being the original limit and X the average at the start, whatever warnings and observations come between and even
  // when the times of some messages lie before those of earlier ones; X is at most the maximum.
  lemma Throughput(s: Session, es: seq<Event>, c: nat)
    requires Valid(s) && !s.bot && c < |s.classes| && Fresh(s.classes[c])
    requires Paced(s, es, c, -HALF, HALF) && Answered(s, es, c, UNHELD)
    ensures var r0, n := s.classes[c], Messages(es, c);
      var o, took := r0.orig, Run(s, es).classes[c].last - r0.last;
      && (n > 0 ==> took >= n * o.limit - (o.window - 1) * (r0.level - o.limit))
      && took >= n * o.limit - (o.window - 1) * (o.max - o.limit)
  {
    UnheldRun(s, es, c, -HALF, HALF);
    AllCredit(s.classes[c], Run(s, es).classes[c], Messages(es, c));
    StartCredit(s.classes[c], Run(s, es).classes[c], Messages(es, c));
  }

  lemma AllCredit(r0: RateState, r: RateState, n: nat)
    requires Fresh(r0) && Progress(r0, r, n, HALF)
    ensures r.last - r0.last >= n * r0.orig.limit - (r0.orig.window - 1) * (r0.orig.max - r0.orig.limit)
  {
    CreditBound(r0.orig.window - 1, r0.orig.limit, r0.orig.max, r.level, r0.level);
  }

  lemma StartCredit(r0: RateState, r: RateState, n: nat)
    requires Fresh(r0) && Progress(r0, r, n, HALF)
    ensures n > 0 ==> r.last - r0.last >= n * r0.orig.limit - (r0.orig.window - 1) * (r0.level - r0.orig.limit)
  {
    if n > 0 { LowerCredit(r0.orig.window - 1, r0.orig.limit, r.level, r0.level); }
  }

  lemma LowerCredit(w: int, limit: int, x: int, x0: int)
    requires w >= 0 && x >= limit
    ensures w * (x - x0) >= -(w * (x0 - limit))
  {
    Nonneg(w, x - limit);
    assert w * (x - x0) + w * (x0 - limit) == w * (x - limit);
  }

  // ---- The bound is met ----

  // n messages, each one `gap` after the one before.
  function Every(c: nat, last: int, gap: int, n: nat): seq<Event> {
    seq(n, i => Message(c, last + (i + 1) * gap))
  }

  lemma EveryNext(c: nat, last: int, gap: int, n: nat)
    requires n > 0
    ensures var es := Every(c, last, gap, n);
      |es| == n && es[..n - 1] == Every(c, last, gap, n - 1) && es[n - 1] == Message(c, last + n * gap)
  {
  }

  // With an average at the limit, gaps of just the limit leave it there.
  lemma LimitHolds(r: RateState, now: int)
    requires Fresh(r) && r.cls == r.orig && r.level == r.orig.limit && now - r.last == r.orig.limit
    requires Timely(r.orig, r.orig.limit)
    ensures var r' := Evaluated(r, now);
      r'.status in UNHELD && Fresh(r') && r'.cls == r'.orig && r'.orig == r.orig && r'.level == r.level
          && r'.last == now
  {
    var l, w := r.orig.limit, r.orig.window;
    TimelySum(r.orig, l, l);
    LevelHolds(r.orig, l, l, l);
    LevelBounds(r.orig, l, l);
    assert l * (w - 1) + l == l * w;
    AtMostLimit(NewLevel(r.orig, l, l), l, w);
  }

  lemma AtMostLimit(x: int, l: int, w: int)
    requires w > 0 && x * w <= l * w
    ensures x <= l
  {
    if x > l { NextProduct(x, l, w); }
  }

  lemma NextProduct(x: int, l: int, w: int)
    requires w > 0 && x > l
    ensures x * w >= l * w + w
  {
    Nonneg(x - l - 1, w);
    assert (x - l - 1) * w == x * w - l * w - w;
  }

  // For every n there is a run of n messages, none of them held back, that starts with the average at the limit and
  // takes n*L milliseconds: the bound of Throughput cannot be raised.
  lemma {:induction false} ThroughputIsMet(s: Session, c: nat, n: nat)
    requires Valid(s) && !s.bot && c < |s.classes| && Fresh(s.classes[c])
    requires s.classes[c].cls == s.classes[c].orig && s.classes[c].level == s.classes[c].orig.limit
    requires Timely(s.classes[c].orig, s.classes[c].orig.limit)
    ensures var r0 := s.classes[c];
      var es := Every(c, r0.last, r0.orig.limit, n);
      && Paced(s, es, c, r0.orig.limit, r0.orig.limit) && Answered(s, es, c, UNHELD) && Messages(es, c) == n
      && AtLimit(r0, Run(s, es).classes[c], n)
  {
    var r0 := s.classes[c];
    var es := Every(c, r0.last, r0.orig.limit, n);
    if n > 0 {
      EveryNext(c, r0.last, r0.orig.limit, n);
      ThroughputIsMet(s, c, n - 1);
      var p := Run(s, es[..n - 1]).classes[c];
      assert (n - 1) * r0.orig.limit + r0.orig.limit == n * r0.orig.limit;
      LimitHolds(p, es[n - 1].now);
      assert Run(s, es).classes[c] == StepClass(Run(s, es[..n - 1]), c, es[n - 1]) == Evaluated(p, es[n - 1].now);
    }
  }

  // The class after n such messages.
  predicate AtLimit(r0: RateState, r: RateState, n: nat) {
    && Fresh(r) && r.cls == r.orig == r0.orig && r.level == r0.level
    && r.last - r0.last == n * r0.orig.limit
  }

  lemma CreditBound(w: int, limit: int, max: int, x: int, x0: int)
    requires w >= 0 && limit <= max && x0 <= max && (x >= limit || x == x0)
    ensures w * (x - x0) >= -(w * (max - limit))
  {
    Nonneg(w, max - limit);
    if x >= limit {
      Nonneg(w, (x - limit) + (max - x0));
      assert w * (x - x0) + w * (max - limit) == w * ((x - limit) + (max - x0));
    } else {
      assert w * (x - x0) == 0;
    }
  }

  // Too fast: when every gap, of either sign, is at most g, below the original limit, fewer than max - g messages pass
  // in a row.
  lemma TooFastIsHeld(s: Session, es: seq<Event>, c: nat, g: int)
    requires Valid(s) && !s.bot && c < |s.classes| && Fresh(s.classes[c])
    requires 0 <= g < s.classes[c].orig.limit && Paced(s, es, c, -HALF, g)
    requires Messages(es, c) >= s.classes[c].orig.max - g
    ensures !Answered(s, es, c, UNHELD)
  {
    if Answered(s, es, c, UNHELD) { UnheldRun(s, es, c, -HALF, g); }
  }

  // No threshold that a message can fall below exceeds a at any point of the run.
  predicate Below(s: Session, es: seq<Event>, c: nat, a: int)
    requires Valid(s) && c < |s.classes|
  {
    var r := Run(s, es).classes[c];
    r.cls.limit <= a && r.cls.alert <= a && (es == [] || Below(s, es[..|es| - 1], c, a))
  }

  // Slow enough: when the level and every gap are at least a, and the thresholds stay at or below a, every message
  // is answered Clear.
  lemma {:induction false} SlowIsClear(s: Session, es: seq<Event>, c: nat, a: int)
    requires Valid(s) && !s.bot && c < |s.classes| && Fresh(s.classes[c])
    requires s.classes[c].level >= a && s.classes[c].orig.max >= a
    requires Paced(s, es, c, a, HALF) && Below(s, es, c, a)
    ensures Answered(s, es, c, {Clear})
    ensures var r := Run(s, es).classes[c]; Fresh(r) && r.level >= a && r.orig == s.classes[c].orig
  {
    if es != [] {
      var k := |es| - 1;
      SlowIsClear(s, es[..k], c, a);
      var p := Run(s, es[..k]).classes[c];
      assert Run(s, es).classes[c] == StepClass(Run(s, es[..k]), c, es[k]);
      assert p.cls.limit <= a && p.cls.alert <= a by { assert Below(s, es[..k], c, a); }
      if IsMessage(es[k], c) {
        assert a >= p.orig.limit > 0;
        ClearStep(p, es[k].now, a);
      } else {
        OtherStep(Run(s, es[..k]), c, es[k]);
      }
    }
  }

  lemma ClearStep(r: RateState, now: int, a: int)
    requires Fresh(r) && Timely(r.orig, now - r.last) && now - r.last >= a
    requires r.level >= a && 0 <= a && r.orig.max >= a && r.cls.limit <= a && r.cls.alert <= a
    ensures var r' := Evaluated(r, now); r'.status == Clear && Fresh(r') && r'.level >= a
  {
    assert Evaluated(r, now).level == NewLevel(r.orig, r.level, now - r.last);
    LevelBounds(r.orig, r.level, now - r.last);
    LevelHolds(r.orig, r.level, now - r.last, a);
  }

  // Without warnings in between, pacing at the alert level is enough.
  lemma {:induction false} UnwarnedStaysBelow(s: Session, es: seq<Event>, c: nat)
    requires Valid(s) && c < |s.classes| && forall i :: 0 <= i < |es| ==> !es[i].Warn?
    ensures Run(s, es).classes[c].cls == s.classes[c].cls
    ensures s.classes[c].cls.limit <= s.classes[c].cls.alert ==> Below(s, es, c, s.classes[c].cls.alert)
  {
    if es != [] {
      var k := |es| - 1;
      UnwarnedStaysBelow(s, es[..k], c);
      assert Run(s, es).classes[c] == StepClass(Run(s, es[..k]), c, es[k]);
    }
  }

  lemma AlertPaceIsClear(s: Session, es: seq<Event>, c: nat)
    requires Valid(s) && !s.bot && c < |s.classes| && Fresh(s.classes[c])
    requires forall i :: 0 <= i < |es| ==> !es[i].Warn?
    requires s.classes[c].cls.limit <= s.classes[c].cls.alert <= s.classes[c].level
    requires Paced(s, es, c, s.classes[c].cls.alert, HALF)
    ensures Answered(s, es, c, {Clear})
  {
    UnwarnedStaysBelow(s, es, c);
    SlowIsClear(s, es, c, s.classes[c].cls.alert);
  }

  // ---- Warnings ----

  predicate WarnsOnly(es: seq<Event>, c: nat) {
    forall i :: 0 <= i < |es| && es[i].Warn? ==> es[i].c == c && Int16(es[i].incr)
  }

  // How many warnings of the run were not refused.
  function Successes(s: Session, es: seq<Event>): nat
    requires Valid(s)
  {
    if es == [] then 0
    else
      var n := |es| - 1;
      Successes(s, es[..n]) + if es[n].Warn? && Accepts(Run(s, es[..n]), es[n].incr) then 1 else 0
  }

  // The threshold is within n of original + headroom * warning / 1000.
  predicate Near(threshold: int, original: int, max: int, warning: int, n: nat) {
    -1000 * n <= 1000 * (threshold - original) - Headroom(original, max) * warning <= 1000 * n
  }

  lemma TruncBounds(a: int)
    ensures -1000 < 1000 * Trunc(a, 1000) - a < 1000
    ensures a >= 0 ==> Trunc(a, 1000) >= 0
  {
  }

  // The clamp moves no threshold away from a target within the clamp's range.
  lemma ClampStaysNear(t: int, o: int, max: int, h: int, d: int, at: int, add: int, at': int, n: nat)
    requires -1000 < 1000 * d - add < 1000 && -1000 * n <= 1000 * (t - o) - at <= 1000 * n
    requires 0 <= at' <= 1000 * h && o + h <= max
    requires at' == at + add || (at' == 0 && at + add <= 0)
    ensures -1000 * (n + 1) <= 1000 * (Clamped(t + d, o, max) - o) - at' <= 1000 * (n + 1)
  {
  }

  lemma Scaled16(h: int, incr: int)
    requires 0 <= h <= 0x100_0000 && Int16(incr)
    ensures Int32(Trunc(h * incr, 1000)) && -0x2600_0000 < Trunc(h * incr, 1000) < 0x2600_0000
  {
    Nonneg(h, incr + 0x8000);
    Nonneg(h, 0x8000 - incr);
    assert h * (incr + 0x8000) == h * incr + 0x8000 * h;
    assert h * (0x8000 - incr) == 0x8000 * h - h * incr;
    TruncBounds(h * incr);
  }

  lemma WarningProducts(h: int, w: int, incr: int)
    requires h >= 0 && 0 <= w <= 1000 && w + incr <= 1000
    ensures var a := h * Max(0, w + incr);
      0 <= a <= 1000 * h && (a == h * w + h * incr || (a == 0 && h * w + h * incr <= 0))
  {
    assert h * (w + incr) == h * w + h * incr;
    if w + incr < 0 {
      Nonneg(h, -(w + incr));
    } else {
      Nonneg(h, w + incr);
      Nonneg(h, 1000 - (w + incr));
    }
  }

  lemma RescaleStaysNear(t: int, o: int, max: int, w: int, n: nat, incr: int)
    requires 0 <= o <= t <= max <= 0x100_0000 && o <= max - 150 && Int16(incr)
    requires 0 <= w <= 1000 && w + incr <= 1000 && Near(t, o, max, w, n)
    ensures Near(Rescale(t, o, max, incr), o, max, Max(0, w + incr), n + 1)
  {
    var h := Headroom(o, max);
    var up := h * incr;
    var d := Trunc(up, 1000);
    TruncBounds(up);
    Scaled16(h, incr);
    WarningProducts(h, w, incr);
    ClampStaysNear(t, o, max, h, d, h * w, up, h * Max(0, w + incr), n);
  }

  predicate AllNear(r: RateState, warning: int, n: nat) {
    && Near(r.cls.limit, r.orig.limit, r.orig.max, warning, n)
    && Near(r.cls.alert, r.orig.alert, r.orig.max, warning, n)
    && Near(r.cls.clear, r.orig.clear, r.orig.max, warning, n)
  }

  lemma RescaledStaysNear(r: RateState, w: int, n: nat, incr: int)
    requires Scaled(r) && AllNear(r, w, n) && Int16(incr) && 0 <= w <= 1000 && w + incr <= 1000
    ensures AllNear(Rescaled(r, incr), Max(0, w + incr), n + 1)
  {
    RescaleStaysNear(r.cls.limit, r.orig.limit, r.orig.max, w, n, incr);
    RescaleStaysNear(r.cls.alert, r.orig.alert, r.orig.max, w, n, incr);
    RescaleStaysNear(r.cls.clear, r.orig.clear, r.orig.max, w, n, incr);
  }

  lemma WarningStep(p: Session, e: Event, c: nat, n: nat)
    requires Valid(p) && c < |p.classes| && (e.Warn? ==> e.c == c && Int16(e.incr))
    requires 0 <= p.warning <= 1000 && AllNear(p.classes[c], p.warning, n)
    ensures var p', r := Step(p, e), Step(p, e).classes[c];
      0 <= p'.warning <= 1000 && r.orig == p.classes[c].orig
      && AllNear(r, p'.warning, n + if e.Warn? && Accepts(p, e.incr) then 1 else 0)
  {
    assert Step(p, e).classes[c] == StepClass(p, c, e);
    if e.Warn? && Accepts(p, e.incr) { RescaledStaysNear(p.classes[c], p.warning, n, e.incr); }
  }

  // The warning stays in 0..1000, and after n accepted warnings each threshold, clamps included, is within n of its
  // original raised in proportion to the warning.
  lemma {:induction false} WarningsScale(s: Session, es: seq<Event>, c: nat)
    requires Valid(s) && c < |s.classes| && WarnsOnly(es, c)
    requires s.warning == 0 && s.classes[c].cls == s.classes[c].orig
    ensures var s', n := Run(s, es), Successes(s, es);
      var r, o := s'.classes[c], s.classes[c].orig;
      0 <= s'.warning <= 1000 && r.orig == o && Scaled(r) && AllNear(r, s'.warning, n)
  {
    if es != [] {
      var k := |es| - 1;
      WarningsScale(s, es[..k], c);
      WarningStep(Run(s, es[..k]), es[k], c, Successes(s, es[..k]));
    }
  }

  // A warning followed by its decay gives the threshold back exactly when raising it did not meet the maximum.
  lemma WarningUndoneExactly(t: int, o: int, max: int, incr: int)
    requires 0 <= o <= t <= max <= 0x100_0000 && o <= max - 150 && 0 <= incr <= 1000
    ensures Rescale(Rescale(t, o, max, incr), o, max, -incr) == t
       <==> t + Trunc(Headroom(o, max) * incr, 1000) <= max
  {
    var h := Headroom(o, max);
    var d := Trunc(h * incr, 1000);
    Nonneg(h, incr);
    Nonneg(h, 1000 - incr);
    assert h * (1000 - incr) == 1000 * h - h * incr;
    assert h * -incr == -(h * incr);
    assert 0 <= d <= h;
    assert Trunc(h * -incr, 1000) == -d;
  }

  // The clear level of the third default class, 750 below where warnings stop raising it.
  const THIRD := RateState(DEFAULTS[2], DEFAULTS[2], 6000, Clear, 0, false, false)

  function Decays(n: nat): seq<Event> { seq(n, _ => Warn(0, -1)) }

  lemma ClearMoves()
    ensures Rescale(5100, 5100, 6000, 1000) == 5850 && Rescale(5850, 5100, 6000, -1) == 5850
  {
    assert Headroom(5100, 6000) == 750;
    assert Trunc(750 * 1000, 1000) == 750 && Trunc(750 * -1, 1000) == 0;
  }

  // The clear level is raised all the way, and the warning is back at w.
  predicate Raised(s: Session, w: int) {
    |s.classes| == 1 && s.classes[0].cls.clear == 5850 && s.classes[0].orig == DEFAULTS[2] && s.warning == w
  }

  lemma FirstRaise()
    ensures Valid(Session([THIRD], 0, false, false))
            && Raised(Step(Session([THIRD], 0, false, false), Warn(0, 1000)), 1000)
  {
    DefaultsSane();
    ClearMoves();
    var s := Session([THIRD], 0, false, false);
    assert Step(s, Warn(0, 1000)).classes[0] == StepClass(s, 0, Warn(0, 1000));
  }

  lemma OneDecay(s: Session, w: int)
    requires Valid(s) && Raised(s, w) && 0 < w <= 1000
    ensures Raised(Step(s, Warn(0, -1)), w - 1)
  {
    ClearMoves();
    assert Step(s, Warn(0, -1)).classes[0] == StepClass(s, 0, Warn(0, -1));
  }

  // A warning of 1000 and then n decays of one leave the raised clear level where it is, for each of them is less
  // than one unit and truncated.
  lemma {:induction false} DecaysLost(n: nat)
    requires n <= 1000
    ensures Valid(Session([THIRD], 0, false, false))
    ensures Raised(Run(Session([THIRD], 0, false, false), [Warn(0, 1000)] + Decays(n)), 1000 - n)
  {
    var s0 := Session([THIRD], 0, false, false);
    FirstRaise();
    if n == 0 {
      RunNext(s0, [], Warn(0, 1000));
      assert [] + [Warn(0, 1000)] == [Warn(0, 1000)] + Decays(0);
    } else {
      DecaysLost(n - 1);
      RunNext(s0, [Warn(0, 1000)] + Decays(n - 1), Warn(0, -1));
      assert [Warn(0, 1000)] + Decays(n - 1) + [Warn(0, -1)] == [Warn(0, 1000)] + Decays(n);
      OneDecay(Run(s0, [Warn(0, 1000)] + Decays(n - 1)), 1001 - n);
    }
  }

  lemma RunNext(s: Session, es: seq<Event>, e: Event)
    requires Valid(s)
    ensures Run(s, es + [e]) == Step(Run(s, es), e)
  {
    assert (es + [e])[..|es + [e]| - 1] == es;
  }

  // So a reachable level meets the maximum: after 202 decays a warning of 202 is not undone by its decay.
  lemma UndoneFails()
    ensures Valid(Session([THIRD], 0, false, false))
    ensures var s := Run(Session([THIRD], 0, false, false), [Warn(0, 1000)] + Decays(202));
      && |s.classes| == 1 && Accepts(s, 202)
      && var t, o := s.classes[0].cls.clear, s.classes[0].orig;
         Rescale(Rescale(t, o.clear, o.max, 202), o.clear, o.max, -202) != t
  {
    DecaysLost(202);
    WarningUndoneExactly(5850, 5100, 6000, 202);
    assert Trunc(750 * 202, 1000) == 151;
  }
}
