/** A limited class: it stays limited until its average is back at the clear level, whatever messages come meanwhile. */
module RateHysteresis {
  import opened RateLimit
  import opened RateRuns

  // ---- The answer to one message ----

  // The answer says where the new average lies, and for a class that was limited only whether it is clear again.
  lemma AnswerExactly(r: RateState, now: int)
    requires Scaled(r)
    ensures var r' := Evaluated(r, now);
      var x := r'.level;
      && (r'.status == Disconnect <==> x < r.cls.disconnect)
      && (r'.status == Limited <==>
            x >= r.cls.disconnect && x < if r.limitedNow then r.cls.clear else r.cls.limit)
      && (r'.status == Alert <==> !r.limitedNow && x >= r.cls.disconnect && r.cls.limit <= x < r.cls.alert)
      && (r'.limitedNow <==> r'.status == Limited)
      && x == NewLevel(r.cls, r.level, now - r.last)
      && r' == r.(level := x, status := r'.status, limitedNow := r'.limitedNow, last := now)
  {
  }

  // An observation of a class that someone watches records the status. It lifts a limit when the average would be at
  // the clear level, and only then does it credit the time that went by.
  lemma ObservationExactly(r: RateState, now: int)
    requires Scaled(r)
    ensures var r', x := Observed(r, now), NewLevel(r.cls, r.level, now - r.last);
      if !r.subscribed then r' == r
      else
        && (r.limitedNow && !r'.limitedNow <==> r.limitedNow && x >= r.cls.clear && x >= r.cls.disconnect)
        && (!r.limitedNow ==> !r'.limitedNow)
        && r'.level == (if r.limitedNow && !r'.limitedNow then x else r.level)
        && (r'.status == Disconnect <==> x < r.cls.disconnect)
        && (r'.status == Limited <==>
              x >= r.cls.disconnect && x < if r.limitedNow then r.cls.clear else r.cls.limit)
        && (r'.status == Alert <==> !r.limitedNow && x >= r.cls.disconnect && r.cls.limit <= x < r.cls.alert)
        && r' == r.(level := r'.level, status := r'.status, limitedNow := r'.limitedNow)
  {
  }

  // For instance: a limited user of the first default class whose average and gap are 1600 stays limited, though that
  // is above the limit level of 1500: the clear level is 2500.
  lemma StillLimited(r: RateState, now: int)
    requires r.cls == DEFAULTS[0] && r.limitedNow && r.level == 1600 && now - r.last == 1600
    ensures Evaluated(r, now).status == Limited && Evaluated(r, now).limitedNow
  {
    TimelySum(DEFAULTS[0], 1600, 1600);
  }

  // ---- Over runs ----

  // The events that the average of a class is computed for.
  predicate Counts(r: RateState, e: Event, c: nat) {
    match e
    case Message(d, _) => d == c
    case Observe(_) => r.subscribed
    case Warn(_, _) => false
  }

  // The average that an event computes.
  function AverageAt(r: RateState, e: Event): int
    requires Scaled(r) && !e.Warn?
  {
    NewLevel(r.cls, r.level, e.now - r.last)
  }

  // The k-th event ends the limit: it finds the class recovered, or it is a message that disconnects.
  predicate EndsLimit(s: Session, es: seq<Event>, c: nat, k: nat)
    requires Valid(s) && c < |s.classes| && k < |es|
  {
    var r := Run(s, es[..k]).classes[c];
    Counts(r, es[k], c)
    && ((AverageAt(r, es[k]) >= r.cls.clear && AverageAt(r, es[k]) >= r.cls.disconnect)
        || (es[k].Message? && AverageAt(r, es[k]) < r.cls.disconnect))
  }

  predicate LimitedSoFar(s: Session, es: seq<Event>, c: nat)
    requires Valid(s) && c < |s.classes|
  {
    Run(s, es).classes[c].limitedNow && Answered(s, es, c, {Limited})
  }

  lemma OneEvent(r: RateState, s: Session, e: Event, c: nat)
    requires Valid(s) && !s.bot && c < |s.classes| && r == s.classes[c] && r.limitedNow
    ensures var r' := StepClass(s, c, e);
      && (!r'.limitedNow <==>
            Counts(r, e, c)
            && ((AverageAt(r, e) >= r.cls.clear && AverageAt(r, e) >= r.cls.disconnect)
                || (e.Message? && AverageAt(r, e) < r.cls.disconnect)))
      && (IsMessage(e, c) && r'.limitedNow ==> r'.status == Limited)
      && (IsMessage(e, c) && !r'.limitedNow ==>
            r'.status == if AverageAt(r, e) < r.cls.disconnect then Disconnect else Clear)
  {
    if e.Message? { AnswerExactly(r, e.now); } else if e.Observe? { ObservationExactly(r, e.now); }
  }

  // From a limited class on, every message is answered Limited and no observation lifts the limit, until an event ends
  // it; if that is a message, it is the first one answered otherwise, with Clear when the average is back at the clear
  // level and with Disconnect when it fell too far.
  lemma {:induction false} LimitedUntil(s: Session, es: seq<Event>, c: nat)
    requires Valid(s) && !s.bot && c < |s.classes| && s.classes[c].limitedNow
    ensures LimitedSoFar(s, es, c)
         || exists k: nat | k < |es| :: LimitedSoFar(s, es[..k], c) && EndsLimit(s, es, c, k)
    ensures forall k: nat | k < |es| && LimitedSoFar(s, es[..k], c) ::
              EndsLimit(s, es, c, k) <==> !Run(s, es[..k + 1]).classes[c].limitedNow
  {
    forall k: nat | k < |es| && LimitedSoFar(s, es[..k], c)
      ensures EndsLimit(s, es, c, k) <==> !Run(s, es[..k + 1]).classes[c].limitedNow
    {
      RunStep(s, es, c, k);
    }
    if es != [] {
      var n := |es| - 1;
      LimitedUntil(s, es[..n], c);
      if LimitedSoFar(s, es[..n], c) {
        RunStep(s, es, c, n);
        assert es[..n + 1] == es;
      } else {
        var k: nat :| k < n && LimitedSoFar(s, es[..n][..k], c) && EndsLimit(s, es[..n], c, k);
        assert es[..n][..k] == es[..k];
        assert EndsLimit(s, es, c, k);
      }
    }
  }

  lemma RunStep(s: Session, es: seq<Event>, c: nat, k: nat)
    requires Valid(s) && !s.bot && c < |s.classes| && k < |es| && LimitedSoFar(s, es[..k], c)
    ensures Run(s, es[..k + 1]).classes[c] == StepClass(Run(s, es[..k]), c, es[k])
    ensures EndsLimit(s, es, c, k) <==> !Run(s, es[..k + 1]).classes[c].limitedNow
    ensures !EndsLimit(s, es, c, k) ==> LimitedSoFar(s, es[..k + 1], c)
    ensures EndsLimit(s, es, c, k) && IsMessage(es[k], c) ==>
              var r := Run(s, es[..k]).classes[c];
              Run(s, es[..k + 1]).classes[c].status
                  == if AverageAt(r, es[k]) < r.cls.disconnect then Disconnect else Clear
  {
    var q := Run(s, es[..k]);
    assert es[..k + 1][..k] == es[..k] && es[..k + 1][k] == es[k];
    assert Run(s, es[..k + 1]).classes[c] == StepClass(q, c, es[k]);
    OneEvent(q.classes[c], q, es[k], c);
  }

  // ---- How long it takes ----

  // Gaps below a and an average below a keep the average below a.
  lemma StaysBelow(c: RateClass, level: int, elapsed: int, a: int)
    requires Sane(c) && 0 <= level <= c.max && Timely(c, elapsed) && level < a && elapsed < a && 0 < a
    ensures NewLevel(c, level, elapsed) < a
  {
    TimelySum(c, level, elapsed);
    var s := level * (c.window - 1) + elapsed;
    SumBelow(level, elapsed, a, c.window);
    if s < 0 { NegativeAverage(s, c.window, c.max); } else { QuotientAtLeast(s, c.window, a); }
  }

  lemma SumBelow(x: int, y: int, a: int, w: int)
    requires x < a && y < a && w >= 1
    ensures x * (w - 1) + y < a * w
  {
    Nonneg(a - 1 - x, w - 1);
    assert (a - 1 - x) * (w - 1) == (a - 1) * (w - 1) - x * (w - 1);
    assert (a - 1) * (w - 1) + (a - 1) == a * w - w;
  }

  // Every event that the average is computed for comes at most g after the last message, and not so late as to wrap.
  predicate Within(s: Session, es: seq<Event>, c: nat, g: int)
    requires Valid(s) && c < |s.classes|
  {
    es == [] ||
    var n := |es| - 1;
    var r := Run(s, es[..n]).classes[c];
    && Within(s, es[..n], c, g)
    && (Counts(r, es[n], c) ==> es[n].now - r.last <= g && Timely(r.orig, es[n].now - r.last))
  }

  predicate BelowClear(r: RateState, r0: RateState) {
    Scaled(r) && r.limitedNow && 0 <= r.level < r.cls.clear && r.cls == r0.cls
  }

  // A limited user who keeps sending with gaps below the clear level never becomes clear again: without warnings, all
  // messages are answered Limited, unless one disconnects.
  lemma {:induction false} NoRelief(s: Session, es: seq<Event>, c: nat, g: int)
    requires Valid(s) && !s.bot && c < |s.classes| && BelowClear(s.classes[c], s.classes[c])
             && g < s.classes[c].cls.clear
    requires (forall i :: 0 <= i < |es| ==> !es[i].Warn?) && Within(s, es, c, g)
    requires Answered(s, es, c, {Clear, Alert, Limited})
    ensures Answered(s, es, c, {Limited}) && BelowClear(Run(s, es).classes[c], s.classes[c])
  {
    if es != [] {
      var n := |es| - 1;
      NoRelief(s, es[..n], c, g);
      var q := Run(s, es[..n]);
      assert Run(s, es).classes[c] == StepClass(q, c, es[n]);
      HeldStep(q, es[n], c, g, s.classes[c]);
    }
  }

  lemma HeldStep(q: Session, e: Event, c: nat, g: int, r0: RateState)
    requires Valid(q) && !q.bot && c < |q.classes| && BelowClear(q.classes[c], r0) && g < r0.cls.clear && !e.Warn?
    requires var r := q.classes[c];
             Counts(r, e, c) ==> e.now - r.last <= g && Timely(r.orig, e.now - r.last)
    requires IsMessage(e, c) ==> StepClass(q, c, e).status != Disconnect
    ensures BelowClear(StepClass(q, c, e), r0)
    ensures IsMessage(e, c) ==> StepClass(q, c, e).status == Limited
  {
    var r := q.classes[c];
    OneEvent(r, q, e, c);
    if Counts(r, e, c) {
      StaysBelow(r.orig, r.level, e.now - r.last, r.cls.clear);
      SameAverage(r, e);
      if e.Message? { AnswerExactly(r, e.now); } else { ObservationExactly(r, e.now); }
    }
  }

  // The average of a class does not depend on its thresholds.
  lemma SameAverage(r: RateState, e: Event)
    requires Scaled(r) && !e.Warn?
    ensures AverageAt(r, e) == NewLevel(r.orig, r.level, e.now - r.last)
  {
  }

  // So the first message that is not answered Limited is a Disconnect.
  lemma NoReliefBeforeDisconnect(s: Session, es: seq<Event>, c: nat, g: int)
    requires Valid(s) && !s.bot && c < |s.classes| && BelowClear(s.classes[c], s.classes[c])
             && g < s.classes[c].cls.clear
    requires (forall i :: 0 <= i < |es| ==> !es[i].Warn?) && Within(s, es, c, g)
    requires es != [] && Answered(s, es[..|es| - 1], c, {Clear, Alert, Limited})
    ensures Answered(s, es, c, {Limited, Disconnect}) && Answered(s, es[..|es| - 1], c, {Limited})
  {
    var n := |es| - 1;
    NoRelief(s, es[..n], c, g);
    AnswersWiden(s, es[..n], c, {Limited}, {Limited, Disconnect});
    var q := Run(s, es[..n]);
    assert Run(s, es).classes[c] == StepClass(q, c, es[n]);
    if IsMessage(es[n], c) && StepClass(q, c, es[n]).status != Disconnect { HeldStep(q, es[n], c, g, s.classes[c]); }
  }

  lemma {:induction false} AnswersWiden(s: Session, es: seq<Event>, c: nat, few: set<Status>, many: set<Status>)
    requires Valid(s) && c < |s.classes| && Answered(s, es, c, few) && few <= many
    ensures Answered(s, es, c, many)
  {
    if es != [] { AnswersWiden(s, es[..|es| - 1], c, few, many); }
  }

  // ---- Closing ----

  // A session closes when a message is answered Disconnect, and in no other way. Bots are never limited.
  lemma ClosesExactly(s: Session, e: Event)
    requires Valid(s)
    ensures Step(s, e).closed <==>
              s.closed || (!s.bot && e.Message? && e.c < |s.classes| && StepClass(s, e.c, e).status == Disconnect)
    ensures s.bot && e.Message? ==> Step(s, e) == s
    ensures Step(s, e).warning
         == if e.Warn? && s.warning + e.incr <= 1000 then (if s.warning + e.incr < 0 then 0 else s.warning + e.incr)
            else s.warning
  {
    if s.bot && e.Message? { assert Step(s, e).classes == s.classes; }
  }
}
