/** The rate-limit part of a session as it runs, one method an entry point, each tied to one step of RateRuns. */
module RateSession {
  import opened RateLimit
  import R = RateRuns

  class RateSession {
    const classes: array<R.RateState>
    var warning: int
    const bot: bool
    var closed: bool

    ghost function State(): R.Session
      reads this, classes
    {
      R.Session(classes[..], warning, bot, closed)
    }

    ghost predicate Valid()
      reads this, classes
    {
      R.Valid(State()) && 0 <= warning <= 1000
    }

    constructor (defaults: seq<RateClass>, now: int, isBot: bool)
      requires forall i :: 0 <= i < |defaults| ==> Sane(defaults[i])
      ensures Valid() && fresh(classes) && classes.Length == |defaults|
      ensures warning == 0 && bot == isBot && !closed
      ensures forall i :: 0 <= i < |defaults| ==>
                R.Fresh(classes[i]) && classes[i].cls == classes[i].orig == defaults[i]
                && classes[i].level == defaults[i].max && classes[i].last == now && !classes[i].subscribed
    {
      classes := new R.RateState[|defaults|](i requires 0 <= i < |defaults| =>
        R.RateState(defaults[i], defaults[i], defaults[i].max, Clear, now, false, false));
      warning, bot, closed := 0, isBot, false;
    }

    method EvaluateRateLimit(now: int, c: nat) returns (status: Status)
      requires Valid() && c < classes.Length
      modifies this`closed, classes
      ensures Valid() && State() == R.Step(old(State()), R.Message(c, now))
      ensures status == if bot then Clear else classes[c].status
    {
      if bot {
        assert State() == R.Step(State(), R.Message(c, now));
        return Clear;
      }
      ghost var s := State();
      var r := classes[c];
      var level := NewLevel(r.cls, r.level, now - r.last);
      status := StatusOf(r.cls, level, r.limitedNow);
      classes[c] := r.(level := level, status := status, last := now, limitedNow := status == Limited);
      if status == Disconnect { closed := true; }
      assert State().classes == R.Step(s, R.Message(c, now)).classes;
    }

    method ObserveRateChanges(now: int)
      requires Valid()
      modifies classes
      ensures Valid() && State() == R.Step(old(State()), R.Observe(now))
    {
      ghost var s := State();
      for i := 0 to classes.Length
        invariant forall j :: 0 <= j < i ==> classes[j] == R.Observed(s.classes[j], now)
        invariant forall j :: i <= j < classes.Length ==> classes[j] == s.classes[j]
      {
        var r := classes[i];
        if r.subscribed {
          var level := NewLevel(r.cls, r.level, now - r.last);
          var status := StatusOf(r.cls, level, r.limitedNow);
          classes[i] := r.(status := status);
          if r.limitedNow && status == Clear {
            classes[i] := classes[i].(limitedNow := false, level := level);
          }
        }
        assert classes[i] == R.Observed(r, now);
      }
      assert State().classes == R.Step(s, R.Observe(now)).classes;
    }

    method ScaleWarningAndRateLimit(incr: int, c: nat) returns (ok: bool, level: int)
      requires Valid() && c < classes.Length && R.Int16(incr)
      modifies this`warning, classes
      ensures Valid() && State() == R.Step(old(State()), R.Warn(c, incr))
      ensures ok == (old(warning) + incr <= 1000) && level == if ok then warning else 0
    {
      ghost var s := State();
      if warning + incr > 1000 {
        assert State().classes == R.Step(s, R.Warn(c, incr)).classes;
        return false, 0;
      }
      warning := if warning + incr < 0 then 0 else warning + incr;
      var o := classes[c].orig;
      var r := classes[c].cls;
      r := r.(limit := R.Rescale(r.limit, o.limit, o.max, incr));
      r := r.(clear := R.Rescale(r.clear, o.clear, o.max, incr));
      r := r.(alert := R.Rescale(r.alert, o.alert, o.max, incr));
      classes[c] := classes[c].(cls := r);
      assert State().classes == R.Step(s, R.Warn(c, incr)).classes;
      return true, warning;
    }
  }
}
